/** `calculate_statistics`: one pass over the parsed records that keeps, per
    URL, the count, sum, maximum and list of request times, and after every
    record rewrites that URL's report row.

    The percentages of a row are computed when its URL was last seen, from
    the running totals of that moment; the only row whose percentages use the
    grand totals is the one for the URL of the final record.  A running total
    time of zero makes the time percentage a division by zero. */
module LogStats {
  import opened Wrappers
  import opened Sorting
  import opened LogParser

  /** A record reduced to what the statistics use. */
  datatype Entry = Entry(url: string, time: real)

  /** The exceptions the loop can raise: a missing named group
      (`AttributeError`), a `request_time` that `float()` rejects
      (`ValueError`), and `ZeroDivisionError`. */
  datatype StatsError = MissingField(name: string) | NotAFloat(text: string) | ZeroTotalTime

  /** `float()` on a string, abstracted: `None` where it raises. */
  type FloatParser = string -> Option<real>

  /** One `ReportParams` row. */
  datatype Row = Row(url: string, count: nat, countPerc: real, timeSum: real, timePerc: real,
                     timeAvg: real, timeMax: real, timeMed: real)

  /** The loop state: the two running totals, the URLs in the order they
      were first inserted into the statistics dictionary, the rows, and the
      per-URL lists of times. */
  datatype Stats = Stats(totalCount: nat, totalTime: real, order: seq<string>,
                         rows: map<string, Row>, times: map<string, seq<real>>)

  const NoStats := Stats(0, 0.0, [], map[], map[])

  /** The statistics dictionary and the times dictionary have the same keys,
      every list of times is non-empty, and `order` lists each key once. */
  predicate WellFormed(s: Stats) {
    && s.rows.Keys == s.times.Keys
    && (forall u :: u in s.times ==> s.times[u] != [])
    && (forall u :: u in s.rows ==> u in s.order)
    && (forall i :: 0 <= i < |s.order| ==> s.order[i] in s.rows)
    && (forall i, j :: 0 <= i < j < |s.order| ==> s.order[i] != s.order[j])
  }

  /** The record's fields in the order the loop reads them:
      `data.request_time`, then `float(...)`, then `data.url`. */
  function ReadEntry(rec: Record, parseFloat: FloatParser): (r: Result<Entry, StatsError>)
    ensures "request_time" !in rec ==> r == Err(MissingField("request_time"))
    ensures "request_time" in rec && parseFloat(rec["request_time"]).None? ==> r == Err(NotAFloat(rec["request_time"]))
    ensures "request_time" in rec && parseFloat(rec["request_time"]).Some? && "url" !in rec ==> r == Err(MissingField("url"))
    ensures r.Ok? <==> "request_time" in rec && parseFloat(rec["request_time"]).Some? && "url" in rec
    ensures r.Ok? ==> r.value.url == rec["url"] && Some(r.value.time) == parseFloat(rec["request_time"])
  {
    if "request_time" !in rec then Err(MissingField("request_time"))
    else
      match parseFloat(rec["request_time"])
      case None => Err(NotAFloat(rec["request_time"]))
      case Some(t) => if "url" !in rec then Err(MissingField("url")) else Ok(Entry(rec["url"], t))
  }

  /** `statistics.median`: the middle of the values in ascending order, or
      the mean of the two middle ones when there is an even number.  The
      ascending position `i` is the descending position `n - 1 - i`. */
  function Median(xs: seq<real>): real
    requires xs != []
  {
    var d := SortDesc(xs, Id);
    var n := |d|;
    if n % 2 == 1 then d[n - 1 - n / 2]
    else (d[n - 1 - (n / 2 - 1)] + d[n - 1 - n / 2]) / 2.0
  }

  /** `part * 100.0 / whole`. */
  function Percent(part: real, whole: real): real
    requires whole != 0.0
  {
    part * 100.0 / whole
  }

  /** The URL's list of times once the entry is appended to it. */
  function NextTimes(s: Stats, e: Entry): (ts: seq<real>)
    requires WellFormed(s)
    ensures ts != []
  {
    if e.url in s.rows then s.times[e.url] + [e.time] else [e.time]
  }

  /** The report row the loop writes for the entry's URL, from the updated
      totals. */
  function NextRow(s: Stats, e: Entry): Row
    requires WellFormed(s) && s.totalTime + e.time != 0.0
  {
    var totalCount := s.totalCount + 1;
    var totalTime := s.totalTime + e.time;
    var (count, timeSum, timeMax) :=
      if e.url in s.rows then
        var cur := s.rows[e.url];
        (cur.count + 1, cur.timeSum + e.time, if cur.timeMax - e.time > 0.0 then cur.timeMax else e.time)
      else (1, e.time, e.time);
    Row(e.url, count, Percent(count as real, totalCount as real), timeSum,
        Percent(timeSum, totalTime), timeSum / (count as real), timeMax, Median(NextTimes(s, e)))
  }

  /** Writing a row and its times under `u`: a new key goes to the end of
      the dictionary order, an existing one keeps its place. */
  function Upsert(s: Stats, u: string, row: Row, ts: seq<real>, totalCount: nat, totalTime: real): Stats {
    Stats(totalCount, totalTime, if u in s.rows then s.order else s.order + [u],
          s.rows[u := row], s.times[u := ts])
  }

  /** Writing a key keeps the state well formed, adds the key, and leaves
      every other row alone. */
  lemma UpsertWellFormed(s: Stats, u: string, row: Row, ts: seq<real>, totalCount: nat, totalTime: real)
    requires WellFormed(s) && ts != []
    ensures var s' := Upsert(s, u, row, ts, totalCount, totalTime);
      && WellFormed(s')
      && s'.rows.Keys == s.rows.Keys + {u}
      && s'.order == (if u in s.rows then s.order else s.order + [u])
      && forall v :: v in s.rows && v != u ==> s'.rows[v] == s.rows[v] && s'.times[v] == s.times[v]
  {
    var s' := Upsert(s, u, row, ts, totalCount, totalTime);
    UpsertKeeps(s, u, row, ts, totalCount, totalTime);
    assert s'.rows.Keys == s.rows.Keys + {u} == s'.times.Keys;
    assert forall v :: v in s'.times ==> s'.times[v] != [] by {
      forall v | v in s'.times
        ensures s'.times[v] != []
      {
        if v != u {
          assert s'.times[v] == s.times[v];
        }
      }
    }
    assert forall i :: 0 <= i < |s'.order| ==> s'.order[i] in s'.rows;
    assert forall v :: v in s'.rows ==> v in s'.order by {
      forall v | v in s'.rows
        ensures v in s'.order
      {
        if v != u {
          assert v in s.order;
        }
      }
    }
    if u !in s.rows {
      assert u !in s.order;
      AppendDistinct(s.order, u);
    }
  }

  lemma UpsertKeeps(s: Stats, u: string, row: Row, ts: seq<real>, totalCount: nat, totalTime: real)
    requires s.rows.Keys == s.times.Keys
    ensures var s' := Upsert(s, u, row, ts, totalCount, totalTime);
      forall v :: v in s.rows && v != u ==> s'.rows[v] == s.rows[v] && s'.times[v] == s.times[v]
  {
  }

  lemma AppendDistinct(order: seq<string>, u: string)
    requires forall i, j :: 0 <= i < j < |order| ==> order[i] != order[j]
    requires u !in order
    ensures forall i, j :: 0 <= i < j < |order + [u]| ==> (order + [u])[i] != (order + [u])[j]
  {
    var o := order + [u];
    forall i, j | 0 <= i < j < |o|
      ensures o[i] != o[j]
    {
      if j == |order| {
        assert o[i] == order[i];
      }
    }
  }

  /** One iteration of the loop for an entry whose fields were read. */
  function Step(s: Stats, e: Entry): (r: Result<Stats, StatsError>)
    requires WellFormed(s)
    ensures r.Err? <==> s.totalTime + e.time == 0.0
  {
    if s.totalTime + e.time == 0.0 then Err(ZeroTotalTime)
    else Ok(Upsert(s, e.url, NextRow(s, e), NextTimes(s, e), s.totalCount + 1, s.totalTime + e.time))
  }

  /** A step keeps the state well formed, adds the entry's URL to the keys
      (at the end of the order when it is new), and leaves every other row
      alone. */
  lemma StepWellFormed(s: Stats, e: Entry)
    requires WellFormed(s) && Step(s, e).Ok?
    ensures var s' := Step(s, e).value;
      && WellFormed(s')
      && s'.rows.Keys == s.rows.Keys + {e.url}
      && s'.order == (if e.url in s.rows then s.order else s.order + [e.url])
      && forall u :: u in s.rows && u != e.url ==> s'.rows[u] == s.rows[u] && s'.times[u] == s.times[u]
  {
    UpsertWellFormed(s, e.url, NextRow(s, e), NextTimes(s, e), s.totalCount + 1, s.totalTime + e.time);
  }

  /** The loop over all records, stopping at the first exception. */
  function CalculateStatistics(records: seq<Record>, parseFloat: FloatParser): (r: Result<Stats, StatsError>)
    ensures r.Ok? ==> WellFormed(r.value)
  {
    if records == [] then Ok(NoStats)
    else
      var s :- CalculateStatistics(records[..|records| - 1], parseFloat);
      var e :- ReadEntry(records[|records| - 1], parseFloat);
      if Step(s, e).Ok? then StepWellFormed(s, e); Step(s, e) else Step(s, e)
  }

  /** `statistics.values()`: the rows in dictionary order. */
  function Report(s: Stats): (rows: seq<Row>)
    requires WellFormed(s)
    ensures |rows| == |s.order|
    ensures forall i :: 0 <= i < |rows| ==> rows[i] == s.rows[s.order[i]]
  {
    seq(|s.order|, i requires 0 <= i < |s.order| => s.rows[s.order[i]])
  }

  // ---------------------------------------------------------------------
  // Reference definitions over the entries, independent of the loop state.

  /** The times of `u`'s entries, in order. */
  function Times(es: seq<Entry>, u: string): seq<real> {
    if es == [] then []
    else Times(es[..|es| - 1], u) + (if es[|es| - 1].url == u then [es[|es| - 1].time] else [])
  }

  function Sum(xs: seq<real>): real {
    if xs == [] then 0.0 else Sum(xs[..|xs| - 1]) + xs[|xs| - 1]
  }

  function MaxOf(xs: seq<real>): real
    requires xs != []
  {
    if |xs| == 1 then xs[0]
    else
      var m := MaxOf(xs[..|xs| - 1]);
      if m >= xs[|xs| - 1] then m else xs[|xs| - 1]
  }

  function MinOf(xs: seq<real>): real
    requires xs != []
  {
    if |xs| == 1 then xs[0]
    else
      var m := MinOf(xs[..|xs| - 1]);
      if m <= xs[|xs| - 1] then m else xs[|xs| - 1]
  }

  /** Sum of all times. */
  function TotalTime(es: seq<Entry>): real {
    if es == [] then 0.0 else TotalTime(es[..|es| - 1]) + es[|es| - 1].time
  }

  /** The distinct URLs, in order of first appearance. */
  function FirstSeen(es: seq<Entry>): seq<string> {
    if es == [] then []
    else
      var f := FirstSeen(es[..|es| - 1]);
      if es[|es| - 1].url in f then f else f + [es[|es| - 1].url]
  }

  /** The position of `u`'s last entry. */
  function LastIndex(es: seq<Entry>, u: string): (k: nat)
    requires u in FirstSeen(es)
    ensures k < |es| && es[k].url == u
    ensures forall j :: k < j < |es| ==> es[j].url != u
  {
    if es[|es| - 1].url == u then |es| - 1 else LastIndex(es[..|es| - 1], u)
  }

  /** The running total time just after entry `k`. */
  function RunningTime(es: seq<Entry>, k: nat): real
    requires k < |es|
  {
    TotalTime(es[..k + 1])
  }

  /** No running total time is zero. */
  predicate PrefixTotalsNonZero(es: seq<Entry>) {
    forall k :: 0 <= k < |es| ==> RunningTime(es, k) != 0.0
  }

  /** The row for `u` with times `ts`, against a total count `n` and a
      total time `w`. */
  function Summary(u: string, ts: seq<real>, n: nat, w: real): Row
    requires ts != [] && n > 0 && w != 0.0
  {
    Row(u, |ts|, Percent(|ts| as real, n as real), Sum(ts), Percent(Sum(ts), w),
        Sum(ts) / (|ts| as real), MaxOf(ts), Median(ts))
  }

  /** The row `u` ends up with, stated from the whole list of entries: its
      count, sum, average, maximum and median over all its times, and its
      percentages against the totals of the prefix ending at its last
      entry. */
  function RowOf(es: seq<Entry>, u: string): Row
    requires u in FirstSeen(es) && PrefixTotalsNonZero(es)
  {
    FirstSeenTimes(es, u);
    var k := LastIndex(es, u);
    Summary(u, Times(es, u), k + 1, RunningTime(es, k))
  }

  /** A URL has been seen exactly when it has times. */
  lemma {:induction false} FirstSeenTimes(es: seq<Entry>, u: string)
    ensures u in FirstSeen(es) <==> Times(es, u) != []
  {
    if es != [] {
      FirstSeenTimes(es[..|es| - 1], u);
    }
  }

  /** `FirstSeen` lists each URL once, and lists exactly the URLs present. */
  lemma {:induction false} FirstSeenDistinct(es: seq<Entry>)
    ensures forall i, j :: 0 <= i < j < |FirstSeen(es)| ==> FirstSeen(es)[i] != FirstSeen(es)[j]
    ensures forall u :: u in FirstSeen(es) <==> exists k :: 0 <= k < |es| && es[k].url == u
  {
    if es != [] {
      var init := es[..|es| - 1];
      FirstSeenDistinct(init);
      forall u
        ensures u in FirstSeen(es) <==> exists k :: 0 <= k < |es| && es[k].url == u
      {
        if u in FirstSeen(init) {
          var k :| 0 <= k < |init| && init[k].url == u;
          assert es[k] == init[k];
        }
        if exists k :: 0 <= k < |es| && es[k].url == u {
          var k :| 0 <= k < |es| && es[k].url == u;
          if k < |init| {
            assert init[k] == es[k];
          }
        }
      }
    }
  }

  /** The loop state after the entries `es`, in terms of the reference
      definitions. */
  ghost predicate Describes(s: Stats, es: seq<Entry>) {
    && PrefixTotalsNonZero(es)
    && s.totalCount == |es| && s.totalTime == TotalTime(es)
    && s.order == FirstSeen(es)
    && s.rows.Keys == s.times.Keys
    && (forall u :: u in s.rows <==> u in FirstSeen(es))
    && (forall u :: u in s.rows ==> s.times[u] == Times(es, u) && s.rows[u] == RowOf(es, u))
  }

  lemma MaxOfSnoc(xs: seq<real>, t: real)
    requires xs != []
    ensures MaxOf(xs + [t]) == if MaxOf(xs) - t > 0.0 then MaxOf(xs) else t
  {
    assert (xs + [t])[..|xs|] == xs;
  }

  lemma SumSnoc(xs: seq<real>, t: real)
    ensures Sum(xs + [t]) == Sum(xs) + t
  {
    assert (xs + [t])[..|xs|] == xs;
  }

  /** The entries before the last one, seen through a longer list. */
  lemma SnocFacts(es: seq<Entry>, e: Entry, u: string)
    ensures (es + [e])[..|es|] == es
    ensures Times(es + [e], u) == Times(es, u) + (if e.url == u then [e.time] else [])
    ensures TotalTime(es + [e]) == TotalTime(es) + e.time
    ensures FirstSeen(es + [e]) == if e.url in FirstSeen(es) then FirstSeen(es) else FirstSeen(es) + [e.url]
  {
    assert (es + [e])[..|es|] == es;
  }

  lemma RunningTimeSnoc(es: seq<Entry>, e: Entry)
    ensures forall k :: 0 <= k < |es| ==> RunningTime(es + [e], k) == RunningTime(es, k)
    ensures RunningTime(es + [e], |es|) == TotalTime(es) + e.time
  {
    forall k | 0 <= k < |es|
      ensures RunningTime(es + [e], k) == RunningTime(es, k)
    {
      assert (es + [e])[..k + 1] == es[..k + 1];
    }
    assert (es + [e])[..|es| + 1] == es + [e];
    SnocFacts(es, e, e.url);
  }

  /** A URL other than the new entry's keeps its reference row. */
  lemma RowOfOther(es: seq<Entry>, e: Entry, u: string)
    requires u in FirstSeen(es) && u != e.url
    requires PrefixTotalsNonZero(es) && PrefixTotalsNonZero(es + [e])
    ensures u in FirstSeen(es + [e])
    ensures RowOf(es + [e], u) == RowOf(es, u)
  {
    SnocFacts(es, e, u);
    RunningTimeSnoc(es, e);
    var k := LastIndex(es, u);
    assert LastIndex(es + [e], u) == k;
    assert Times(es + [e], u) == Times(es, u);
  }

  /** The new entry's URL gets its reference row. */
  lemma RowOfLast(es: seq<Entry>, e: Entry)
    requires PrefixTotalsNonZero(es + [e]) && TotalTime(es) + e.time != 0.0
    ensures e.url in FirstSeen(es + [e])
    ensures Times(es + [e], e.url) != []
    ensures RowOf(es + [e], e.url) == Summary(e.url, Times(es + [e], e.url), |es| + 1, TotalTime(es) + e.time)
  {
    SnocFacts(es, e, e.url);
    RunningTimeSnoc(es, e);
    assert LastIndex(es + [e], e.url) == |es|;
  }

  lemma PrefixTotalsSnoc(es: seq<Entry>, e: Entry)
    requires PrefixTotalsNonZero(es) && TotalTime(es) + e.time != 0.0
    ensures PrefixTotalsNonZero(es + [e])
  {
    RunningTimeSnoc(es, e);
    forall k | 0 <= k < |es + [e]|
      ensures RunningTime(es + [e], k) != 0.0
    {
      if k < |es| {
        assert RunningTime(es + [e], k) == RunningTime(es, k);
      }
    }
  }

  /** The row a step writes for a URL already in the statistics: the
      running count, sum and maximum are those of the extended list. */
  lemma StepRowSeen(s: Stats, e: Entry, ts0: seq<real>)
    requires WellFormed(s) && s.totalTime + e.time != 0.0 && e.url in s.rows && ts0 != []
    requires s.times[e.url] == ts0
    requires s.rows[e.url].count == |ts0| && s.rows[e.url].timeSum == Sum(ts0) && s.rows[e.url].timeMax == MaxOf(ts0)
    ensures NextTimes(s, e) == ts0 + [e.time]
    ensures NextRow(s, e) == Summary(e.url, ts0 + [e.time], s.totalCount + 1, s.totalTime + e.time)
  {
    var cur, ts := s.rows[e.url], ts0 + [e.time];
    assert cur.count + 1 == |ts|;
    assert cur.timeSum + e.time == Sum(ts) by {
      SumSnoc(ts0, e.time);
    }
    assert (if cur.timeMax - e.time > 0.0 then cur.timeMax else e.time) == MaxOf(ts) by {
      MaxOfSnoc(ts0, e.time);
    }
  }

  /** The row a step writes for a URL new to the statistics. */
  lemma StepRowNew(s: Stats, e: Entry)
    requires WellFormed(s) && s.totalTime + e.time != 0.0 && e.url !in s.rows
    ensures NextTimes(s, e) == [e.time]
    ensures NextRow(s, e) == Summary(e.url, [e.time], s.totalCount + 1, s.totalTime + e.time)
  {
    assert Sum([e.time]) == e.time by {
      assert [e.time][..0] == [];
    }
  }

  /** The row of the new entry's URL after a step. */
  lemma StepDescribesLast(s: Stats, es: seq<Entry>, e: Entry)
    requires Describes(s, es) && WellFormed(s) && Step(s, e).Ok?
    requires PrefixTotalsNonZero(es + [e]) && e.url in FirstSeen(es + [e])
    ensures e.url in Step(s, e).value.rows && e.url in Step(s, e).value.times
    ensures Step(s, e).value.times[e.url] == Times(es + [e], e.url)
    ensures Step(s, e).value.rows[e.url] == RowOf(es + [e], e.url)
  {
    var u := e.url;
    var ts := Times(es + [e], u);
    assert Step(s, e).value.rows[u] == NextRow(s, e) && Step(s, e).value.times[u] == NextTimes(s, e);
    assert s.totalCount == |es| && s.totalTime == TotalTime(es);
    assert NextTimes(s, e) == ts && NextRow(s, e) == Summary(u, ts, |es| + 1, TotalTime(es) + e.time) by {
      SnocFacts(es, e, u);
      FirstSeenTimes(es, u);
      if u in s.rows {
        var ts0 := Times(es, u);
        assert s.rows[u] == RowOf(es, u) && s.times[u] == ts0;
        StepRowSeen(s, e, ts0);
      } else {
        assert Times(es, u) == [];
        StepRowNew(s, e);
      }
    }
    RowOfLast(es, e);
  }

  /** One step of the loop keeps the state described by the entries so far. */
  lemma StepDescribes(s: Stats, es: seq<Entry>, e: Entry)
    requires Describes(s, es) && WellFormed(s) && Step(s, e).Ok?
    ensures Describes(Step(s, e).value, es + [e])
  {
    var s' := Step(s, e).value;
    var es' := es + [e];
    StepWellFormed(s, e);
    SnocFacts(es, e, e.url);
    PrefixTotalsSnoc(es, e);
    assert forall u :: u in s'.rows <==> u in FirstSeen(es');
    StepDescribesLast(s, es, e);
    forall u | u in s'.rows && u != e.url
      ensures s'.times[u] == Times(es', u) && s'.rows[u] == RowOf(es', u)
    {
      SnocFacts(es, e, u);
      RowOfOther(es, e, u);
    }
  }

  /** The entries of records that all read successfully. */
  function Entries(records: seq<Record>, parseFloat: FloatParser): (es: seq<Entry>)
    requires forall i :: 0 <= i < |records| ==> ReadEntry(records[i], parseFloat).Ok?
    ensures |es| == |records|
    ensures forall i :: 0 <= i < |records| ==> ReadEntry(records[i], parseFloat) == Ok(es[i])
  {
    if records == [] then []
    else Entries(records[..|records| - 1], parseFloat) + [ReadEntry(records[|records| - 1], parseFloat).value]
  }

  lemma EntriesSnoc(records: seq<Record>, parseFloat: FloatParser)
    requires records != []
    requires forall i :: 0 <= i < |records| ==> ReadEntry(records[i], parseFloat).Ok?
    ensures var init := records[..|records| - 1];
      && (forall i :: 0 <= i < |init| ==> ReadEntry(init[i], parseFloat).Ok?)
      && Entries(records, parseFloat) == Entries(init, parseFloat) + [ReadEntry(records[|records| - 1], parseFloat).value]
  {
  }

  /** A successful loop read every record. */
  lemma {:induction false} CalculateStatisticsReads(records: seq<Record>, parseFloat: FloatParser)
    requires CalculateStatistics(records, parseFloat).Ok?
    ensures forall i :: 0 <= i < |records| ==> ReadEntry(records[i], parseFloat).Ok?
  {
    if records != [] {
      var init, last := records[..|records| - 1], records[|records| - 1];
      assert CalculateStatistics(init, parseFloat).Ok?;
      assert ReadEntry(last, parseFloat).Ok?;
      CalculateStatisticsReads(init, parseFloat);
      forall i | 0 <= i < |records|
        ensures ReadEntry(records[i], parseFloat).Ok?
      {
        if i < |init| {
          assert init[i] == records[i];
        } else {
          assert i == |records| - 1;
        }
      }
    }
  }

  /** A successful loop read every record and holds the state the reference
      definitions describe. */
  lemma {:induction false} CalculateStatisticsDescribes(records: seq<Record>, parseFloat: FloatParser)
    requires CalculateStatistics(records, parseFloat).Ok?
    ensures forall i :: 0 <= i < |records| ==> ReadEntry(records[i], parseFloat).Ok?
    ensures Describes(CalculateStatistics(records, parseFloat).value, Entries(records, parseFloat))
  {
    if records != [] {
      var init, last := records[..|records| - 1], records[|records| - 1];
      assert CalculateStatistics(init, parseFloat).Ok?;
      assert ReadEntry(last, parseFloat).Ok?;
      CalculateStatisticsReads(records, parseFloat);
      CalculateStatisticsDescribes(init, parseFloat);
      EntriesSnoc(records, parseFloat);
      var si := CalculateStatistics(init, parseFloat).value;
      var e := ReadEntry(last, parseFloat).value;
      assert CalculateStatistics(records, parseFloat) == Step(si, e);
      StepDescribes(si, Entries(init, parseFloat), e);
    }
  }

  /** The loop succeeds when every record reads and no running total time is
      zero. */
  lemma {:induction false} CalculateStatisticsSucceeds(records: seq<Record>, parseFloat: FloatParser)
    requires forall i :: 0 <= i < |records| ==> ReadEntry(records[i], parseFloat).Ok?
    requires PrefixTotalsNonZero(Entries(records, parseFloat))
    ensures CalculateStatistics(records, parseFloat).Ok?
  {
    if records != [] {
      var init, last := records[..|records| - 1], records[|records| - 1];
      EntriesSnoc(records, parseFloat);
      var es, e := Entries(init, parseFloat), ReadEntry(last, parseFloat).value;
      RunningTimeSnoc(es, e);
      assert PrefixTotalsNonZero(es);
      CalculateStatisticsSucceeds(init, parseFloat);
      CalculateStatisticsDescribes(init, parseFloat);
      assert RunningTime(es + [e], |es|) != 0.0;
    }
  }

  /** The loop succeeds exactly when every record reads and no running total
      time is zero; it then holds, for every URL in order of first
      appearance, the row the reference definitions give. */
  lemma CalculateStatisticsMeaning(records: seq<Record>, parseFloat: FloatParser)
    ensures CalculateStatistics(records, parseFloat).Ok? <==>
      && (forall i :: 0 <= i < |records| ==> ReadEntry(records[i], parseFloat).Ok?)
      && PrefixTotalsNonZero(Entries(records, parseFloat))
    ensures CalculateStatistics(records, parseFloat).Ok? ==>
      Describes(CalculateStatistics(records, parseFloat).value, Entries(records, parseFloat))
  {
    if CalculateStatistics(records, parseFloat).Ok? {
      CalculateStatisticsDescribes(records, parseFloat);
    } else if forall i :: 0 <= i < |records| ==> ReadEntry(records[i], parseFloat).Ok? {
      if PrefixTotalsNonZero(Entries(records, parseFloat)) {
        CalculateStatisticsSucceeds(records, parseFloat);
      }
    }
  }

  /** The report lists one row per distinct URL, in order of first
      appearance, each equal to its reference row. */
  lemma ReportRows(records: seq<Record>, parseFloat: FloatParser)
    requires CalculateStatistics(records, parseFloat).Ok?
    ensures forall i :: 0 <= i < |records| ==> ReadEntry(records[i], parseFloat).Ok?
    ensures var es := Entries(records, parseFloat);
      var rows := Report(CalculateStatistics(records, parseFloat).value);
      && PrefixTotalsNonZero(es)
      && |rows| == |FirstSeen(es)|
      && forall i :: 0 <= i < |rows| ==> rows[i] == RowOf(es, FirstSeen(es)[i])
  {
    CalculateStatisticsMeaning(records, parseFloat);
  }

  // ---------------------------------------------------------------------
  // Properties of the per-URL figures.

  /** The maximum is one of the values and no value exceeds it; appending a
      value never lowers it. */
  lemma {:induction false} MaxOfIsMaximum(xs: seq<real>)
    requires xs != []
    ensures MaxOf(xs) in xs
    ensures forall i :: 0 <= i < |xs| ==> xs[i] <= MaxOf(xs)
  {
    if |xs| > 1 {
      var init := xs[..|xs| - 1];
      MaxOfIsMaximum(init);
      assert forall i :: 0 <= i < |init| ==> init[i] == xs[i];
    }
  }

  lemma MaxOfNeverDecreases(xs: seq<real>, t: real)
    requires xs != []
    ensures MaxOf(xs) <= MaxOf(xs + [t]) && t <= MaxOf(xs + [t])
  {
    MaxOfSnoc(xs, t);
  }

  lemma {:induction false} MinOfIsMinimum(xs: seq<real>)
    requires xs != []
    ensures MinOf(xs) in xs
    ensures forall i :: 0 <= i < |xs| ==> MinOf(xs) <= xs[i]
  {
    if |xs| > 1 {
      var init := xs[..|xs| - 1];
      MinOfIsMinimum(init);
      assert forall i :: 0 <= i < |init| ==> init[i] == xs[i];
    }
  }

  /** The median lies between the smallest and the largest value. */
  lemma MedianBetween(xs: seq<real>)
    requires xs != []
    ensures MinOf(xs) <= Median(xs) <= MaxOf(xs)
  {
    var d := SortDesc(xs, Id);
    var n := |d|;
    SortDescSorts(xs, Id);
    MaxOfIsMaximum(xs);
    MinOfIsMinimum(xs);
    forall i | 0 <= i < n
      ensures MinOf(xs) <= d[i] <= MaxOf(xs)
    {
      assert d[i] in multiset(d);
      assert d[i] in multiset(xs);
    }
    if n % 2 == 0 {
      assert MinOf(xs) <= d[n - 1 - (n / 2 - 1)] <= MaxOf(xs);
      assert MinOf(xs) <= d[n - 1 - n / 2] <= MaxOf(xs);
    }
  }

  /** The median does not depend on the order of the values. */
  lemma MedianOrderFree(xs: seq<real>, ys: seq<real>)
    requires xs != [] && multiset(xs) == multiset(ys)
    ensures ys != [] && Median(xs) == Median(ys)
  {
    assert |xs| == |multiset(xs)| == |multiset(ys)| == |ys|;
    assert SortDesc(xs, Id) == SortDesc(ys, Id) by {
      SortDescSorts(xs, Id);
      SortedIs(ys, SortDesc(xs, Id));
    }
  }

  /** A non-increasing rearrangement of the values is their sort. */
  lemma SortedIs(xs: seq<real>, d: seq<real>)
    requires NonIncreasing(d, Id) && multiset(xs) == multiset(d)
    ensures SortDesc(xs, Id) == d
  {
    SortDescSorts(xs, Id);
    SortedUnique(SortDesc(xs, Id), d);
  }

  lemma ThreeMultiset(a: real, b: real, c: real)
    ensures multiset([a, b, c]) == multiset{a, b, c}
  {
    assert [a, b, c] == [a] + [b] + [c];
  }

  /** Of three values, in any order, the median is the middle one. */
  lemma MedianOddExample(xs: seq<real>, lo: real, mid: real, hi: real)
    requires lo <= mid <= hi && multiset(xs) == multiset{lo, mid, hi}
    ensures xs != [] && Median(xs) == mid
  {
    assert |xs| == |multiset(xs)| == 3;
    var d := [hi, mid, lo];
    assert SortDesc(xs, Id) == d by {
      assert NonIncreasing(d, Id) by {
        assert d[0] >= d[1] >= d[2];
      }
      ThreeMultiset(hi, mid, lo);
      SortedIs(xs, d);
    }
  }

  /** Of two values, in either order, the median is their mean. */
  lemma MedianEvenExample(xs: seq<real>, x: real, y: real)
    requires multiset(xs) == multiset{x, y}
    ensures xs != [] && Median(xs) == (x + y) / 2.0
  {
    assert |xs| == |multiset(xs)| == 2;
    var d := if x >= y then [x, y] else [y, x];
    assert SortDesc(xs, Id) == d by {
      assert NonIncreasing(d, Id);
      assert multiset(d) == multiset{x, y} by {
        assert d == [d[0]] + [d[1]];
      }
      SortedIs(xs, d);
    }
  }

  /** Only the URL of the final entry has its percentages taken against the
      grand totals. */
  lemma FinalUrlUsesGrandTotals(es: seq<Entry>)
    requires es != [] && PrefixTotalsNonZero(es) && TotalTime(es) != 0.0
    ensures es[|es| - 1].url in FirstSeen(es)
    ensures var u := es[|es| - 1].url; var ts := Times(es, u);
      && RowOf(es, u).countPerc == Percent(|ts| as real, |es| as real)
      && RowOf(es, u).timePerc == Percent(Sum(ts), TotalTime(es))
  {
    var init, e := es[..|es| - 1], es[|es| - 1];
    assert es == init + [e];
    SnocFacts(init, e, e.url);
    assert LastIndex(es, e.url) == |es| - 1;
    assert RunningTime(es, |es| - 1) == TotalTime(es) by {
      assert es[..|es|] == es;
    }
  }

  /** The percentages of a reference row, from its count, its last index,
      its time sum and the running total at that index. */
  lemma RowPercentsAre(es: seq<Entry>, u: string, n: nat, i: nat, t: real, w: real)
    requires u in FirstSeen(es) && PrefixTotalsNonZero(es)
    requires |Times(es, u)| == n && LastIndex(es, u) == i
    requires Sum(Times(es, u)) == t && i < |es| && RunningTime(es, i) == w
    ensures RowOf(es, u).countPerc == Percent(n as real, (i + 1) as real)
    ensures w != 0.0 && RowOf(es, u).timePerc == Percent(t, w)
  {
    FirstSeenTimes(es, u);
  }

  lemma PercentOfWhole(x: real)
    requires x != 0.0
    ensures Percent(x, x) == 100.0
  {
  }

  /** The reference definitions on one request to each of two URLs. */
  lemma TwoRequestsFacts(a: Entry, b: Entry)
    requires a.url != b.url && a.time > 0.0 && b.time > 0.0
    ensures PrefixTotalsNonZero([a, b])
    ensures FirstSeen([a, b]) == [a.url, b.url]
    ensures LastIndex([a, b], a.url) == 0 && LastIndex([a, b], b.url) == 1
    ensures RunningTime([a, b], 0) == a.time && RunningTime([a, b], 1) == a.time + b.time
    ensures |Times([a, b], a.url)| == 1 && Sum(Times([a, b], a.url)) == a.time
    ensures |Times([a, b], b.url)| == 1 && Sum(Times([a, b], b.url)) == b.time
  {
    var es := [a, b];
    SnocFacts([a], b, a.url);
    SnocFacts([a], b, b.url);
    SnocFacts([], a, a.url);
    SnocFacts([], a, b.url);
    assert [a] + [b] == es && [] + [a] == [a];
    assert RunningTime(es, 0) == a.time by {
      assert es[..1] == [a];
    }
    assert RunningTime(es, 1) == a.time + b.time by {
      assert es[..2] == es;
    }
    assert PrefixTotalsNonZero(es) by {
      forall k | 0 <= k < |es|
        ensures RunningTime(es, k) != 0.0
      {
        assert k == 0 || k == 1;
      }
    }
    assert Times(es, a.url) == [a.time] && Times(es, b.url) == [b.time];
    assert [a.time][..0] == [] && [b.time][..0] == [];
  }

  /** The first of two single requests: its row was computed when only its
      own request had been seen. */
  lemma FirstOfTwoRow(a: Entry, b: Entry)
    requires a.url != b.url && a.time > 0.0 && b.time > 0.0
    ensures PrefixTotalsNonZero([a, b]) && a.url in FirstSeen([a, b])
    ensures RowOf([a, b], a.url).countPerc == 100.0 && RowOf([a, b], a.url).timePerc == 100.0
  {
    TwoRequestsFacts(a, b);
    RowPercentsAre([a, b], a.url, 1, 0, a.time, a.time);
    PercentOfWhole(1.0);
    PercentOfWhole(a.time);
  }

  /** The second of two single requests: its count is taken against both
      requests. */
  lemma SecondOfTwoRow(a: Entry, b: Entry)
    requires a.url != b.url && a.time > 0.0 && b.time > 0.0
    ensures PrefixTotalsNonZero([a, b]) && b.url in FirstSeen([a, b])
    ensures RowOf([a, b], b.url).countPerc == 50.0
  {
    TwoRequestsFacts(a, b);
    RowPercentsAre([a, b], b.url, 1, 1, b.time, a.time + b.time);
    assert Percent(1.0, 2.0) == 50.0;
  }

  /** One request to each of two URLs: the first row was computed when only
      its own request had been seen and reports 100 percent, the second
      reports 50 percent of the count, so the count percentages add up to
      150. */
  lemma RunningPercentagesExample(a: Entry, b: Entry)
    requires a.url != b.url && a.time > 0.0 && b.time > 0.0
    ensures PrefixTotalsNonZero([a, b]) && FirstSeen([a, b]) == [a.url, b.url]
    ensures RowOf([a, b], a.url).countPerc == 100.0 && RowOf([a, b], a.url).timePerc == 100.0
    ensures RowOf([a, b], b.url).countPerc == 50.0
  {
    TwoRequestsFacts(a, b);
    FirstOfTwoRow(a, b);
    SecondOfTwoRow(a, b);
  }

  /** A first request with a zero time divides by zero. */
  lemma ZeroTimeRaises(rec: Record, parseFloat: FloatParser)
    requires ReadEntry(rec, parseFloat).Ok? && ReadEntry(rec, parseFloat).value.time == 0.0
    ensures CalculateStatistics([rec], parseFloat) == Err(ZeroTotalTime)
  {
    assert [rec][..0] == [];
  }
}

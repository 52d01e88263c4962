/** The streaming parse of a log: `parse_line` applies the configured
    regular expression to one line, `parse_log` folds over the lines with a
    `total` and a `processed` counter, yields the accepted records in order,
    and, once the input is exhausted, raises when the share of rejected lines
    is above the allowed error percentage.

    The regular expression is an uninterpreted matcher: for a line it gives
    `None` when `re.search` finds nothing, and otherwise the match's
    `groupdict()`. */
module LogParser {
  import opened Wrappers

  /** One parsed line: group name to captured text. */
  type Record = map<string, string>

  type Matcher = string -> Option<Record>

  /** `parse_line`: a match becomes a `LineParams` named tuple built from the
      group dictionary.  A named tuple is falsy exactly when it has no fields,
      so a match of a pattern without named groups is treated by `parse_log`
      like no match at all. */
  function ParseLine(matcher: Matcher, line: string): (r: Option<Record>)
    ensures r.Some? <==> matcher(line).Some? && |matcher(line).value| > 0
    ensures r.Some? ==> r.value == matcher(line).value
  {
    match matcher(line)
    case None => None
    case Some(groups) => if |groups| == 0 then None else Some(groups)
  }

  /** The state of `parse_log` after some lines: what it has yielded and its
      two counters. */
  datatype ParseState = ParseState(yielded: seq<Record>, total: nat, processed: nat)

  /** `parse_log` before its final check, over the lines read so far. */
  function ParseLog(matcher: Matcher, lines: seq<string>): (st: ParseState)
    ensures st.total == |lines|
    ensures st.processed == |st.yielded|
    ensures st.processed <= st.total
  {
    if lines == [] then ParseState([], 0, 0)
    else
      var st := ParseLog(matcher, lines[..|lines| - 1]);
      match ParseLine(matcher, lines[|lines| - 1])
      case None => ParseState(st.yielded, st.total + 1, st.processed)
      case Some(rec) => ParseState(st.yielded + [rec], st.total + 1, st.processed + 1)
  }

  /** Reference definition of what the parse yields: the parsed form of every
      accepted line, in input order, read from the front. */
  function Accepted(matcher: Matcher, lines: seq<string>): seq<Record> {
    if lines == [] then []
    else
      (match ParseLine(matcher, lines[0]) case None => [] case Some(rec) => [rec])
      + Accepted(matcher, lines[1..])
  }

  lemma {:induction false} AcceptedAppend(matcher: Matcher, a: seq<string>, b: seq<string>)
    ensures Accepted(matcher, a + b) == Accepted(matcher, a) + Accepted(matcher, b)
  {
    if a == [] {
      assert a + b == b;
    } else {
      assert (a + b)[0] == a[0] && (a + b)[1..] == a[1..] + b;
      AcceptedAppend(matcher, a[1..], b);
    }
  }

  /** The fold yields exactly the accepted lines, in order. */
  lemma {:induction false} ParseLogYieldsAccepted(matcher: Matcher, lines: seq<string>)
    ensures ParseLog(matcher, lines).yielded == Accepted(matcher, lines)
  {
    if lines != [] {
      var init, last := lines[..|lines| - 1], lines[|lines| - 1];
      ParseLogYieldsAccepted(matcher, init);
      assert lines == init + [last];
      AcceptedAppend(matcher, init, [last]);
      assert Accepted(matcher, [last]) ==
        (match ParseLine(matcher, last) case None => [] case Some(rec) => [rec]) by {
        assert [last][1..] == [];
      }
    }
  }

  /** Every yielded record is the parse of some line, and each accepted line
      is yielded. */
  lemma {:induction false} ParseLogSound(matcher: Matcher, lines: seq<string>)
    ensures forall r :: r in ParseLog(matcher, lines).yielded <==>
      exists i :: 0 <= i < |lines| && ParseLine(matcher, lines[i]) == Some(r)
  {
    if lines != [] {
      var init, last := lines[..|lines| - 1], lines[|lines| - 1];
      ParseLogSound(matcher, init);
      forall r
        ensures r in ParseLog(matcher, lines).yielded <==>
          exists i :: 0 <= i < |lines| && ParseLine(matcher, lines[i]) == Some(r)
      {
        if r in ParseLog(matcher, lines).yielded {
          if r in ParseLog(matcher, init).yielded {
            var i :| 0 <= i < |init| && ParseLine(matcher, init[i]) == Some(r);
            assert lines[i] == init[i];
          } else {
            assert ParseLine(matcher, lines[|lines| - 1]) == Some(r);
          }
        }
        if exists i :: 0 <= i < |lines| && ParseLine(matcher, lines[i]) == Some(r) {
          var i :| 0 <= i < |lines| && ParseLine(matcher, lines[i]) == Some(r);
          if i < |init| {
            assert init[i] == lines[i];
          }
        }
      }
    }
  }

  /** The check `parse_log` makes after the last line:
      `total and processed * 100 / total < 100 - allowed`, with the true
      division cross-multiplied (exact on the rationals). */
  predicate BudgetExceeded(st: ParseState, allowedPercent: int) {
    st.total > 0 && st.processed * 100 < (100 - allowedPercent) * st.total
  }

  /** The budget is exceeded exactly when the rejected lines make up more
      than the allowed percentage of a non-empty input. */
  lemma BudgetMeansRejectedShare(matcher: Matcher, lines: seq<string>, allowedPercent: int)
    ensures var st := ParseLog(matcher, lines);
      BudgetExceeded(st, allowedPercent) <==>
        |lines| > 0 && (|lines| - |Accepted(matcher, lines)|) * 100 > allowedPercent * |lines|
  {
    ParseLogYieldsAccepted(matcher, lines);
  }

  /** An empty log yields nothing and never raises. */
  lemma EmptyLogNeverRaises(matcher: Matcher, allowedPercent: int)
    ensures ParseLog(matcher, []).yielded == []
    ensures !BudgetExceeded(ParseLog(matcher, []), allowedPercent)
  {
  }

  lemma ScaledShares(t: nat, a: int)
    requires t > 0
    ensures a >= 0 ==> 100 * t >= (100 - a) * t
    ensures 0 < (100 - a) * t <==> a < 100
  {
    if a < 100 {
      assert (100 - a) * t >= t;
    } else {
      assert (100 - a) * t <= 0;
    }
  }

  /** A log whose every line is accepted never raises for a non-negative
      allowance. */
  lemma AllAcceptedNeverRaises(matcher: Matcher, lines: seq<string>, allowedPercent: int)
    requires |lines| > 0 && |Accepted(matcher, lines)| == |lines| && allowedPercent >= 0
    ensures !BudgetExceeded(ParseLog(matcher, lines), allowedPercent)
  {
    ParseLogYieldsAccepted(matcher, lines);
    ScaledShares(|lines|, allowedPercent);
  }

  /** A non-empty log whose every line is rejected raises unless the allowance
      is 100 percent or more. */
  lemma AllRejectedRaises(matcher: Matcher, lines: seq<string>, allowedPercent: int)
    requires |lines| > 0 && Accepted(matcher, lines) == []
    ensures BudgetExceeded(ParseLog(matcher, lines), allowedPercent) <==> allowedPercent < 100
  {
    ParseLogYieldsAccepted(matcher, lines);
    ScaledShares(|lines|, allowedPercent);
  }
}

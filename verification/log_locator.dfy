/** Choosing the log to analyse and naming its report.

    A log name is matched by `re.match('(nginx-access-ui.log-)(\d{8})(.*)', f)`:
    the literal prefix (whose `.` is a regular-expression wildcard), eight
    digits, then the extension, which is everything up to the first line
    break.  The digits are read with `strptime("%Y%m%d")` as soon as a name
    matches, before the extension is looked at, so a name with an impossible
    date aborts the scan even when its extension would have excluded it. */
module LogLocator {
  import opened Wrappers
  import opened Text
  import opened Calendar

  const LogPrefix: string := "nginx-access-ui.log-"

  datatype LogParams = LogParams(path: string, date: Date, ext: string)

  datatype NameMatch = NameMatch(digits: string, ext: string)

  /** One character of the prefix pattern: index 15 is the unescaped `.`,
      which matches anything but a line break. */
  predicate PrefixCharMatches(i: nat, c: char)
    requires i < |LogPrefix|
  {
    if i == 15 then c != '\n' else c == LogPrefix[i]
  }

  /** What `(.*)` captures: the text up to the first line break. */
  function UpToNewline(s: string): (r: string)
    ensures |r| <= |s| && r == s[..|r|] && '\n' !in r
    ensures |r| < |s| ==> s[|r|] == '\n'
  {
    match IndexOf(s, '\n')
    case None => s
    case Some(k) => s[..k]
  }

  function MatchName(f: string): (r: Option<NameMatch>)
    ensures r.Some? <==>
      && |f| >= |LogPrefix| + 8
      && (forall i :: 0 <= i < |LogPrefix| ==> PrefixCharMatches(i, f[i]))
      && AllDigits(f[|LogPrefix|..|LogPrefix| + 8])
    ensures r.Some? ==> r.value.digits == f[20..28] && r.value.ext == UpToNewline(f[28..])
  {
    if && |f| >= |LogPrefix| + 8
       && (forall i :: 0 <= i < |LogPrefix| ==> PrefixCharMatches(i, f[i]))
       && AllDigits(f[20..28])
    then Some(NameMatch(f[20..28], UpToNewline(f[28..])))
    else None
  }

  /** A matching name whose digits are no calendar date. */
  predicate BadDate(f: string) {
    MatchName(f).Some? && ParseCompact(MatchName(f).value.digits).Err?
  }

  /** A matching name with a real date. */
  predicate Dated(f: string) {
    MatchName(f).Some? && ParseCompact(MatchName(f).value.digits).Ok?
  }

  function ParamsOf(f: string): LogParams
    requires Dated(f)
  {
    var m := MatchName(f).value;
    LogParams(f, ParseCompact(m.digits).value, m.ext)
  }

  /** `ALLOWED_EXTENSIONS`: the built-in list, or the text a user line
      gives it.  `ext in` a list tests membership; `ext in` a string tests
      for a substring. */
  datatype Extensions = ExtList(items: seq<string>) | ExtText(text: string)

  /** `sub` occurs in `text` starting at index `i`. */
  predicate OccursAt(text: string, sub: string, i: nat) {
    i + |sub| <= |text| && text[i..i + |sub|] == sub
  }

  /** `ext in allowed`. */
  predicate Allows(allowed: Extensions, ext: string) {
    match allowed
    case ExtList(items) => ext in items
    case ExtText(t) => exists i: nat | i <= |t| :: OccursAt(t, ext, i)
  }

  /** A text allows the empty extension, itself and every piece of itself,
      and nothing longer than itself. */
  lemma TextAllowsPieces(t: string, i: nat, j: nat, ext: string)
    requires i <= j <= |t|
    ensures Allows(ExtText(t), t[i..j]) && Allows(ExtText(t), "") && Allows(ExtText(t), t)
    ensures |ext| > |t| ==> !Allows(ExtText(t), ext)
  {
    assert OccursAt(t, t[i..j], i);
    assert OccursAt(t, "", 0);
    assert OccursAt(t, t, 0);
  }

  /** Whatever a one-item list allows, its text allows too. */
  lemma TextAllowsListItem(t: string, ext: string)
    requires Allows(ExtList([t]), ext)
    ensures Allows(ExtText(t), ext)
  {
    assert OccursAt(t, ext, 0);
  }

  /** Written in a user file, `ALLOWED_EXTENSIONS=.gz` admits plain logs and
      the pieces of `.gz`, such as `.g` and `gz`, but not `.bz2`. */
  lemma TextExtensionsExample()
    ensures Allows(ExtText(".gz"), "") && Allows(ExtText(".gz"), ".gz")
    ensures Allows(ExtText(".gz"), ".g") && Allows(ExtText(".gz"), "gz")
    ensures !Allows(ExtText(".gz"), ".bz2")
    ensures !Allows(ExtList(["", ".gz"]), "gz")
  {
    TextAllowsPieces(".gz", 0, 2, ".bz2");
    assert ".gz"[0..2] == ".g" && ".gz"[1..3] == "gz";
    TextAllowsPieces(".gz", 1, 3, "");
  }

  /** The index of the first name the log pattern matches, if any. */
  function FirstMatched(names: seq<string>): (r: Option<nat>)
    ensures r.None? <==> forall i :: 0 <= i < |names| ==> MatchName(names[i]).None?
    ensures r.Some? ==> r.value < |names| && MatchName(names[r.value]).Some?
                        && forall j :: 0 <= j < r.value ==> MatchName(names[j]).None?
  {
    if names == [] then None
    else if MatchName(names[0]).Some? then Some(0)
    else match FirstMatched(names[1..])
      case None => None
      case Some(k) => Some(k + 1)
  }

  /** A name the scan may select. */
  predicate Candidate(f: string, allowed: Extensions) {
    Dated(f) && Allows(allowed, ParamsOf(f).ext)
  }

  /** The first name, in scan order, whose date cannot be read. */
  predicate FirstBad(names: seq<string>, i: int) {
    0 <= i < |names| && BadDate(names[i]) && forall j :: 0 <= j < i ==> !BadDate(names[j])
  }

  /** No candidate among `names` is newer than `d`. */
  predicate NoneNewer(names: seq<string>, allowed: Extensions, d: Date) {
    forall j :: 0 <= j < |names| && Candidate(names[j], allowed) ==> !Before(d, ParamsOf(names[j]).date)
  }

  /** Every candidate before index `k` is strictly older than `d`. */
  predicate AllOlder(names: seq<string>, allowed: Extensions, k: int, d: Date) {
    forall j :: 0 <= j < k && j < |names| && Candidate(names[j], allowed) ==> Before(ParamsOf(names[j]).date, d)
  }

  /** `p`, read from `names[k]`, is the newest candidate and the earliest
      scanned among equally new ones. */
  predicate NewestAt(names: seq<string>, allowed: Extensions, p: LogParams, k: int) {
    && 0 <= k < |names| && Candidate(names[k], allowed) && p == ParamsOf(names[k])
    && NoneNewer(names, allowed, p.date)
    && AllOlder(names, allowed, k, p.date)
  }

  /** The body of the scan loop for one name. */
  function ScanStep(last: Option<LogParams>, f: string, allowed: Extensions): Result<Option<LogParams>, DateError> {
    match MatchName(f)
    case None => Ok(last)
    case Some(m) =>
      match ParseCompact(m.digits)
      case Err(e) => Err(e)
      case Ok(d) =>
        if !Allows(allowed, m.ext) then Ok(last)
        else if last.None? || Before(last.value.date, d) then Ok(Some(LogParams(f, d, m.ext)))
        else Ok(last)
  }

  /** `find_last_log_params` over the names of the log directory, in the
      order they are listed: a left fold of `ScanStep` that stops at the first
      exception. */
  function FindLastLog(names: seq<string>, allowed: Extensions): Result<Option<LogParams>, DateError> {
    if names == [] then Ok(None)
    else
      var last :- FindLastLog(names[..|names| - 1], allowed);
      ScanStep(last, names[|names| - 1], allowed)
  }

  /** The scan raises exactly when some matching name has an impossible date,
      and then with the error of the first such name. */
  lemma {:induction false} FindLastLogRaises(names: seq<string>, allowed: Extensions)
    ensures FindLastLog(names, allowed).Err? <==> exists i :: 0 <= i < |names| && BadDate(names[i])
    ensures FindLastLog(names, allowed).Err? ==>
      exists i :: FirstBad(names, i) && FindLastLog(names, allowed).error == ParseCompact(MatchName(names[i]).value.digits).error
  {
    if names != [] {
      var init := names[..|names| - 1];
      FindLastLogRaises(init, allowed);
      if FindLastLog(init, allowed).Err? {
        RaisedBefore(names, allowed);
      } else {
        RaisedLast(names, allowed);
      }
    }
  }

  /** An exception among the earlier names ends the scan with it. */
  lemma RaisedBefore(names: seq<string>, allowed: Extensions)
    requires names != [] && FindLastLog(names[..|names| - 1], allowed).Err?
    requires var init := names[..|names| - 1];
      exists i :: FirstBad(init, i) && FindLastLog(init, allowed).error == ParseCompact(MatchName(init[i]).value.digits).error
    ensures FindLastLog(names, allowed) == FindLastLog(names[..|names| - 1], allowed)
    ensures exists i :: 0 <= i < |names| && BadDate(names[i])
    ensures exists i :: FirstBad(names, i) && FindLastLog(names, allowed).error == ParseCompact(MatchName(names[i]).value.digits).error
  {
    var init := names[..|names| - 1];
    var i :| FirstBad(init, i) && FindLastLog(init, allowed).error == ParseCompact(MatchName(init[i]).value.digits).error;
    assert forall j :: 0 <= j <= i ==> names[j] == init[j];
    assert FirstBad(names, i);
  }

  /** After earlier names that raise nothing, the scan raises exactly when
      the last name has an impossible date. */
  lemma RaisedLast(names: seq<string>, allowed: Extensions)
    requires names != [] && FindLastLog(names[..|names| - 1], allowed).Ok?
    requires var init := names[..|names| - 1];
      forall i :: 0 <= i < |init| ==> !BadDate(init[i])
    ensures FindLastLog(names, allowed).Err? <==> exists i :: 0 <= i < |names| && BadDate(names[i])
    ensures FindLastLog(names, allowed).Err? ==>
      exists i :: FirstBad(names, i) && FindLastLog(names, allowed).error == ParseCompact(MatchName(names[i]).value.digits).error
  {
    var init, f := names[..|names| - 1], names[|names| - 1];
    assert forall j :: 0 <= j < |init| ==> names[j] == init[j];
    var ri := FindLastLog(init, allowed);
    assert FindLastLog(names, allowed) == ScanStep(ri.value, f, allowed);
    ScanStepRaises(ri.value, f, allowed);
    if BadDate(f) {
      assert FirstBad(names, |names| - 1);
    }
  }

  /** One step of the scan raises exactly on a matching name with an
      impossible date, with that date's error. */
  lemma ScanStepRaises(last: Option<LogParams>, f: string, allowed: Extensions)
    ensures ScanStep(last, f, allowed).Err? <==> BadDate(f)
    ensures BadDate(f) ==> ScanStep(last, f, allowed).error == ParseCompact(MatchName(f).value.digits).error
  {
  }

  /** The scan finds nothing exactly when no name raises and no name is a
      candidate. */
  lemma {:induction false} FindLastLogNothing(names: seq<string>, allowed: Extensions)
    ensures FindLastLog(names, allowed) == Ok(None) <==>
      forall i :: 0 <= i < |names| ==> !BadDate(names[i]) && !Candidate(names[i], allowed)
  {
    if names != [] {
      var init := names[..|names| - 1];
      assert forall j :: 0 <= j < |init| ==> names[j] == init[j];
      FindLastLogNothing(init, allowed);
      FindLastLogRaises(init, allowed);
    }
  }

  /** What one step of the scan does to the current choice. */
  lemma ScanStepChoice(last: Option<LogParams>, f: string, allowed: Extensions)
    requires ScanStep(last, f, allowed).Ok?
    ensures var next := ScanStep(last, f, allowed).value;
      && (next != last ==> next.Some? && Candidate(f, allowed) && next.value == ParamsOf(f)
                            && (last.Some? ==> Before(last.value.date, next.value.date)))
      && (next == last && last.Some? && Candidate(f, allowed) ==> !Before(last.value.date, ParamsOf(f).date))
      && (last.None? && Candidate(f, allowed) ==> next.Some?)
  {
  }

  /** A first candidate after names that hold none is the newest so far. */
  lemma NewestAtFirst(init: seq<string>, f: string, allowed: Extensions)
    requires forall i :: 0 <= i < |init| ==> !Candidate(init[i], allowed)
    requires Candidate(f, allowed)
    ensures NewestAt(init + [f], allowed, ParamsOf(f), |init|)
  {
    var names := init + [f];
    var d := ParamsOf(f).date;
    BeforeIsStrictTotalOrder(d, d, d);
    forall j | 0 <= j < |names|
      ensures Candidate(names[j], allowed) ==> j == |init|
    {
      if j < |init| {
        assert names[j] == init[j];
      }
    }
  }

  /** A name that is no newer than the current choice leaves it standing. */
  lemma NewestAtKeep(init: seq<string>, f: string, allowed: Extensions, q: LogParams, k: int)
    requires NewestAt(init, allowed, q, k)
    requires Candidate(f, allowed) ==> !Before(q.date, ParamsOf(f).date)
    ensures NewestAt(init + [f], allowed, q, k)
  {
    var names := init + [f];
    assert names[k] == init[k];
    forall j | 0 <= j < |names| && Candidate(names[j], allowed)
      ensures !Before(q.date, ParamsOf(names[j]).date)
    {
      if j < |init| {
        assert names[j] == init[j];
      }
    }
    forall j | 0 <= j < k && j < |names| && Candidate(names[j], allowed)
      ensures Before(ParamsOf(names[j]).date, q.date)
    {
      assert names[j] == init[j];
    }
  }

  /** A strictly newer candidate replaces the current choice. */
  lemma NewestAtReplace(init: seq<string>, f: string, allowed: Extensions, q: LogParams, k: int)
    requires NewestAt(init, allowed, q, k)
    requires Candidate(f, allowed) && Before(q.date, ParamsOf(f).date)
    ensures NewestAt(init + [f], allowed, ParamsOf(f), |init|)
  {
    var names := init + [f];
    var d := ParamsOf(f).date;
    forall j | 0 <= j < |names| && Candidate(names[j], allowed)
      ensures !Before(d, ParamsOf(names[j]).date)
      ensures j < |init| ==> Before(ParamsOf(names[j]).date, d)
    {
      var dj := ParamsOf(names[j]).date;
      if j < |init| {
        assert names[j] == init[j];
        BeforeIsStrictTotalOrder(dj, q.date, d);
        BeforeIsStrictTotalOrder(q.date, d, dj);
        BeforeIsStrictTotalOrder(d, dj, q.date);
      } else {
        BeforeIsStrictTotalOrder(d, d, d);
      }
    }
  }

  lemma {:induction false} FindLastLogNewestAt(names: seq<string>, allowed: Extensions) returns (k: int)
    requires FindLastLog(names, allowed).Ok? && FindLastLog(names, allowed).value.Some?
    ensures NewestAt(names, allowed, FindLastLog(names, allowed).value.value, k)
  {
    var n := |names| - 1;
    var init, f := names[..n], names[n];
    assert names == init + [f];
    var last := FindLastLog(init, allowed).value;
    assert FindLastLog(names, allowed) == ScanStep(last, f, allowed);
    ScanStepChoice(last, f, allowed);
    var next := ScanStep(last, f, allowed).value;
    if last.None? {
      FindLastLogNothing(init, allowed);
      NewestAtFirst(init, f, allowed);
      k := n;
    } else {
      var k0 := FindLastLogNewestAt(init, allowed);
      if next == last {
        NewestAtKeep(init, f, allowed, last.value, k0);
        k := k0;
      } else {
        NewestAtReplace(init, f, allowed, last.value, k0);
        k := n;
      }
    }
  }

  /** A selected log is a candidate, no candidate is newer, and every
      candidate scanned before it is strictly older: on equal dates the
      first name scanned wins. */
  lemma FindLastLogNewest(names: seq<string>, allowed: Extensions)
    requires FindLastLog(names, allowed).Ok? && FindLastLog(names, allowed).value.Some?
    ensures var p := FindLastLog(names, allowed).value.value;
      && Allows(allowed, p.ext) && p.path in names && Valid(p.date)
      && exists k :: NewestAt(names, allowed, p, k)
  {
    var k := FindLastLogNewestAt(names, allowed);
  }

  /** `'report-%s.html' % date.strftime("%Y.%m.%d")`. */
  function ReportName(d: Date): string
    requires Valid(d)
  {
    "report-" + FormatDotted(d) + ".html"
  }

  /** `os.path.join(dir, name)` for a relative `name`. */
  function Join(dir: string, name: string): string {
    if dir == [] || dir[|dir| - 1] == '/' then dir + name else dir + "/" + name
  }

  /** The report file for a log date: the one path both `already_parsed`
      tests and `create_report` writes. */
  function ReportPath(reportDir: string, d: Date): string
    requires Valid(d)
  {
    Join(reportDir, ReportName(d))
  }

  /** `already_parsed`, with the report directory's existing paths given as a
      set; a missing directory is the empty set. */
  predicate AlreadyParsed(reportDir: string, p: LogParams, existing: set<string>)
    requires Valid(p.date)
  {
    ReportPath(reportDir, p.date) in existing
  }

  /** The report of a selected log carries the log's own eight digits,
      regrouped as YYYY.MM.DD. */
  lemma ReportNameOfLog(f: string)
    requires Dated(f)
    ensures Valid(ParamsOf(f).date)
    ensures var ds := f[20..28];
      ReportName(ParamsOf(f).date) == "report-" + ds[..4] + "." + ds[4..6] + "." + ds[6..] + ".html"
  {
    CompactRoundTrip(f[20..28]);
  }

  /** Distinct log dates never share a report. */
  lemma ReportNameInjective(a: Date, b: Date)
    requires Valid(a) && Valid(b) && ReportName(a) == ReportName(b)
    ensures a == b
  {
    var na, nb := ReportName(a), ReportName(b);
    assert na[7..|na| - 5] == FormatDotted(a);
    assert nb[7..|nb| - 5] == FormatDotted(b);
    FormatDottedInjective(a, b);
  }

  /** Reading a concrete log name: `MatchName` and `ParseCompact` on a
      prefix, eight digits and an extension without line breaks. */
  lemma NameParts(digits: string, ext: string)
    requires |digits| == 8 && AllDigits(digits) && '\n' !in ext
    ensures var f := LogPrefix + digits + ext;
      MatchName(f) == Some(NameMatch(digits, ext))
  {
    var f := LogPrefix + digits + ext;
    assert f[20..28] == digits;
    assert f[28..] == ext;
    assert forall i :: 0 <= i < |LogPrefix| ==> f[i] == LogPrefix[i];
  }

  /** The three fields of an eight-digit name, digit by digit. */
  lemma CompactFields(s: string)
    requires |s| == 8 && AllDigits(s)
    ensures DigitsValue(s[..4]) == 1000 * DigitValue(s[0]) + 100 * DigitValue(s[1]) + 10 * DigitValue(s[2]) + DigitValue(s[3])
    ensures DigitsValue(s[4..6]) == 10 * DigitValue(s[4]) + DigitValue(s[5])
    ensures DigitsValue(s[6..]) == 10 * DigitValue(s[6]) + DigitValue(s[7])
  {
    DigitsValueShort(s[..4]);
    DigitsValueShort(s[4..6]);
    DigitsValueShort(s[6..]);
  }

  /** One scan step on a name built from the prefix, eight digits and an
      extension without line breaks. */
  lemma ScanNamed(last: Option<LogParams>, digits: string, ext: string, allowed: Extensions)
    requires |digits| == 8 && AllDigits(digits) && '\n' !in ext
    ensures var f := LogPrefix + digits + ext;
      ScanStep(last, f, allowed) ==
        if ParseCompact(digits).Err? then Err(ParseCompact(digits).error)
        else if Allows(allowed, ext) && (last.None? || Before(last.value.date, ParseCompact(digits).value))
        then Ok(Some(LogParams(f, ParseCompact(digits).value, ext)))
        else Ok(last)
  {
    NameParts(digits, ext);
  }

  /** The scan over a list with one more name. */
  lemma FindLastLogSnoc(init: seq<string>, f: string, allowed: Extensions)
    ensures FindLastLog(init + [f], allowed) ==
      if FindLastLog(init, allowed).Err? then FindLastLog(init, allowed)
      else ScanStep(FindLastLog(init, allowed).value, f, allowed)
  {
    assert (init + [f])[..|init|] == init;
  }

  /** A name that does not match, or a dated one whose extension is not
      allowed, leaves the scan's result as it was. */
  lemma FindLastLogIgnores(init: seq<string>, f: string, allowed: Extensions)
    requires MatchName(f).None? || (Dated(f) && !Allows(allowed, ParamsOf(f).ext))
    ensures FindLastLog(init + [f], allowed) == FindLastLog(init, allowed)
  {
    FindLastLogSnoc(init, f, allowed);
  }

  /** The dates of the example names. */
  lemma ExampleDates()
    ensures ParseCompact("20170629") == Ok(Date(2017, 6, 29))
    ensures ParseCompact("20170630") == Ok(Date(2017, 6, 30))
    ensures ParseCompact("20170701") == Ok(Date(2017, 7, 1))
    ensures ParseCompact("20170231") == Err(DayOutOfRange)
  {
    June29();
    June30();
    July1();
    February31();
  }

  lemma June29()
    ensures ParseCompact("20170629") == Ok(Date(2017, 6, 29))
  {
    CompactFields("20170629");
  }

  lemma June30()
    ensures ParseCompact("20170630") == Ok(Date(2017, 6, 30))
  {
    CompactFields("20170630");
  }

  lemma July1()
    ensures ParseCompact("20170701") == Ok(Date(2017, 7, 1))
  {
    CompactFields("20170701");
  }

  lemma February31()
    ensures ParseCompact("20170231") == Err(DayOutOfRange)
  {
    CompactFields("20170231");
    assert !IsLeap(2017);
  }

  /** The scan over two names is two steps. */
  lemma TwoNames(a: string, b: string, allowed: Extensions)
    ensures FindLastLog([a, b], allowed) ==
      if ScanStep(None, a, allowed).Err? then ScanStep(None, a, allowed)
      else ScanStep(ScanStep(None, a, allowed).value, b, allowed)
  {
    FindLastLogSnoc([], a, allowed);
    FindLastLogSnoc([a], b, allowed);
    assert [a, b] == [a] + [b] && [a] == [] + [a];
  }

  /** A newer allowed log replaces an older allowed one, whatever their
      extensions. */
  lemma NewerReplacesExample(d1: string, e1: string, d2: string, e2: string, allowed: Extensions)
    requires |d1| == 8 && AllDigits(d1) && '\n' !in e1 && Allows(allowed, e1)
    requires |d2| == 8 && AllDigits(d2) && '\n' !in e2 && Allows(allowed, e2)
    requires ParseCompact(d1).Ok? && ParseCompact(d2).Ok?
    requires Before(ParseCompact(d1).value, ParseCompact(d2).value)
    ensures FindLastLog([LogPrefix + d1 + e1, LogPrefix + d2 + e2], allowed)
         == Ok(Some(LogParams(LogPrefix + d2 + e2, ParseCompact(d2).value, e2)))
  {
    var a := LogPrefix + d1 + e1;
    ScanNamed(None, d1, e1, allowed);
    ScanNamed(Some(LogParams(a, ParseCompact(d1).value, e1)), d2, e2, allowed);
    TwoNames(a, LogPrefix + d2 + e2, allowed);
  }

  /** Equal dates: the name scanned first is kept, whatever the second
      one's extension. */
  lemma TieKeepsFirstExample(d1: string, e1: string, d2: string, e2: string, allowed: Extensions)
    requires |d1| == 8 && AllDigits(d1) && '\n' !in e1 && Allows(allowed, e1)
    requires |d2| == 8 && AllDigits(d2) && '\n' !in e2
    requires ParseCompact(d1).Ok? && ParseCompact(d2) == ParseCompact(d1)
    ensures FindLastLog([LogPrefix + d1 + e1, LogPrefix + d2 + e2], allowed)
         == Ok(Some(LogParams(LogPrefix + d1 + e1, ParseCompact(d1).value, e1)))
  {
    var a := LogPrefix + d1 + e1;
    ScanNamed(None, d1, e1, allowed);
    ScanNamed(Some(LogParams(a, ParseCompact(d1).value, e1)), d2, e2, allowed);
    TwoNames(a, LogPrefix + d2 + e2, allowed);
  }

  /** An impossible date raises its error even when its extension is not
      allowed and a valid log came before it. */
  lemma BadDateRaisesExample(d1: string, e1: string, d2: string, e2: string, allowed: Extensions)
    requires |d1| == 8 && AllDigits(d1) && '\n' !in e1
    requires |d2| == 8 && AllDigits(d2) && '\n' !in e2
    requires ParseCompact(d1).Ok? && ParseCompact(d2).Err?
    ensures FindLastLog([LogPrefix + d1 + e1, LogPrefix + d2 + e2], allowed) == Err(ParseCompact(d2).error)
  {
    var a := LogPrefix + d1 + e1;
    ScanNamed(None, d1, e1, allowed);
    var last := if Allows(allowed, e1) then Some(LogParams(a, ParseCompact(d1).value, e1)) else None;
    ScanNamed(last, d2, e2, allowed);
    TwoNames(a, LogPrefix + d2 + e2, allowed);
  }
}

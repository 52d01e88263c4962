/** One run of the analyzer (`main` with `create_report`): find the newest
    log, stop if its report exists, otherwise parse it, compute the
    statistics and write the report.  Any exception ends the run; the outer
    handler only logs it.

    The configuration values keep the types the merged configuration gives
    them: a user line makes an integer of a value of digits and a string of
    anything else, and each step raises a `TypeError` only where it uses a
    value of the wrong type.

    The file system is given as data: the names in the log directory, the
    set of paths already present in the report directory, and the lines of
    each log file. */
module LogPipeline {
  import opened Wrappers
  import opened Calendar
  import opened LogLocator
  import opened LogParser
  import opened LogStats
  import opened LogReport
  import opened UserConfig

  /** The configuration entries a run reads. */
  datatype Settings = Settings(reportSize: ConfigValue, reportDir: ConfigValue, allowedErrorsPercent: ConfigValue,
                               allowedExtensions: ConfigValue, matcher: Matcher)

  /** The entries a run reads, or `None` when one is missing (a `KeyError`
      at its first use). */
  function SettingsOf(cfg: Config, matcher: Matcher): (r: Option<Settings>)
    ensures r.Some? <==> && "REPORT_SIZE" in cfg && "REPORT_DIR" in cfg
                         && "ALLOWED_ERRORS_PERCENT" in cfg && "ALLOWED_EXTENSIONS" in cfg
    ensures r.Some? ==> && r.value.reportSize == cfg["REPORT_SIZE"] && r.value.reportDir == cfg["REPORT_DIR"]
                        && r.value.allowedErrorsPercent == cfg["ALLOWED_ERRORS_PERCENT"]
                        && r.value.allowedExtensions == cfg["ALLOWED_EXTENSIONS"] && r.value.matcher == matcher
  {
    if && "REPORT_SIZE" in cfg && "REPORT_DIR" in cfg
       && "ALLOWED_ERRORS_PERCENT" in cfg && "ALLOWED_EXTENSIONS" in cfg
    then Some(Settings(cfg["REPORT_SIZE"], cfg["REPORT_DIR"], cfg["ALLOWED_ERRORS_PERCENT"],
                       cfg["ALLOWED_EXTENSIONS"], matcher))
    else None
  }

  /** Every configuration `merge_configs` returns holds the entries a run
      reads, whatever the user file says. */
  lemma ConfigGivesSettings(logRegexp: string, path: Option<string>, readFile: string -> Option<seq<string>>,
                            matcher: Matcher)
    requires AnalyzerConfig(logRegexp, path, readFile).Ok?
    ensures SettingsOf(AnalyzerConfig(logRegexp, path, readFile).value, matcher).Some?
  {
  }

  /** The built-in defaults: reports of at most 1000 rows under
      `./reports`, 15 percent of unparsed lines allowed, plain and `.gz`
      logs. */
  lemma DefaultSettings(logRegexp: string, matcher: Matcher)
    ensures SettingsOf(AnalyzerDefaults(logRegexp), matcher)
         == Some(Settings(CInt(1000), CStr("./reports"), CInt(15), CList(["", ".gz"]), matcher))
  {
  }

  /** What `ext in ALLOWED_EXTENSIONS` tests: membership in a list, a
      substring of a string; any other value cannot be searched. */
  function ExtensionsOf(v: ConfigValue): (r: Option<Extensions>)
    ensures r.Some? <==> v.CList? || v.CStr?
    ensures v.CList? ==> forall ext :: Allows(r.value, ext) <==> ext in v.items
    ensures v.CStr? ==> forall ext :: Allows(r.value, ext) <==> Allows(ExtText(v.s), ext)
  {
    match v
    case CList(items) => Some(ExtList(items))
    case CStr(s) => Some(ExtText(s))
    case _ => None
  }

  datatype RunError =
    | BadLogDate(date: DateError)
    | StatsFailed(stats: StatsError)
    | TooManyErrors
    | TypeError(key: string)

  /** The error `strptime` raises on a matching name. */
  function DateErrorOf(f: string): DateError
    requires BadDate(f)
  {
    ParseCompact(MatchName(f).value.digits).error
  }

  /** `find_last_log_params` with the configured extensions.  A value that
      is neither a list nor a string raises at the first matching name: the
      date error if its date is impossible, otherwise the `TypeError` of the
      extension test. */
  function FindLog(v: ConfigValue, names: seq<string>): (r: Result<Option<LogParams>, RunError>)
    ensures ExtensionsOf(v).Some? ==> var s := FindLastLog(names, ExtensionsOf(v).value);
      && (r.Ok? <==> s.Ok?)
      && (r.Ok? ==> r.value == s.value)
      && (r.Err? ==> r.error == BadLogDate(s.error))
    ensures ExtensionsOf(v).None? ==>
      && (r == Ok(None) <==> forall i :: 0 <= i < |names| ==> MatchName(names[i]).None?)
      && (r != Ok(None) ==> exists i :: && 0 <= i < |names| && MatchName(names[i]).Some?
                                        && (forall j :: 0 <= j < i ==> MatchName(names[j]).None?)
                                        && r == Err(if BadDate(names[i]) then BadLogDate(DateErrorOf(names[i]))
                                                    else TypeError("ALLOWED_EXTENSIONS")))
  {
    match ExtensionsOf(v)
    case Some(allowed) =>
      (match FindLastLog(names, allowed)
       case Err(e) => Err(BadLogDate(e))
       case Ok(p) => Ok(p))
    case None =>
      match FirstMatched(names)
      case None => Ok(None)
      case Some(i) =>
        if BadDate(names[i]) then Err(BadLogDate(DateErrorOf(names[i])))
        else Err(TypeError("ALLOWED_EXTENSIONS"))
  }

  /** A date error from the scan is the one of the first name whose date
      is impossible, whatever the extensions. */
  lemma FindLogDateError(v: ConfigValue, names: seq<string>)
    requires FindLog(v, names).Err? && FindLog(v, names).error.BadLogDate?
    ensures exists i :: FirstBad(names, i) && FindLog(v, names).error == BadLogDate(DateErrorOf(names[i]))
  {
    if ExtensionsOf(v).Some? {
      FindLastLogRaises(names, ExtensionsOf(v).value);
    } else {
      var i := FirstMatched(names).value;
      assert FirstBad(names, i);
    }
  }

  /** A found log is the newest allowed one. */
  lemma FindLogNewest(v: ConfigValue, names: seq<string>)
    requires FindLog(v, names).Ok? && FindLog(v, names).value.Some?
    ensures ExtensionsOf(v).Some?
    ensures var p := FindLog(v, names).value.value;
      && Valid(p.date) && p.path in names && Allows(ExtensionsOf(v).value, p.ext)
      && exists k :: NewestAt(names, ExtensionsOf(v).value, p, k)
  {
    FindLastLogNewest(names, ExtensionsOf(v).value);
  }

  /** `[:REPORT_SIZE]` on the ranked rows: an integer bounds them, `None`
      keeps them all, anything else raises. */
  function ReportOf(size: ConfigValue, rows: seq<Row>): (r: Option<seq<seq<(string, Json)>>>)
    ensures r.None? <==> size.CStr? || size.CList?
    ensures r.Some? ==> |r.value| == if size.CInt? && size.i < |rows| then size.i else |rows|
  {
    match size
    case CInt(n) => RankShape(rows, n); Some(PrepareJson(rows, n))
    case CNone => RankShape(rows, |rows|); Some(PrepareJson(rows, |rows|))
    case _ => None
  }

  datatype Outcome =
    | NoLog
    | AlreadyDone(path: string)
    | Failed(error: RunError)
    | Wrote(path: string, report: seq<seq<(string, Json)>>)

  /** The run.  The statistics loop pulls the records out of the parse
      generator one by one, so an exception in the loop ends the run before
      the generator reaches its final error-budget check, and that check
      comes before the report is cut to size. */
  function Run(cfg: Settings, names: seq<string>, existing: set<string>, contents: string -> seq<string>,
               parseFloat: FloatParser): (out: Outcome)
    ensures out.NoLog? <==> FindLog(cfg.allowedExtensions, names) == Ok(None)
    ensures FindLog(cfg.allowedExtensions, names).Err? ==> out == Failed(FindLog(cfg.allowedExtensions, names).error)
    ensures out.AlreadyDone? || out.Wrote? ==> cfg.reportDir.CStr?
  {
    match FindLog(cfg.allowedExtensions, names)
    case Err(e) => Failed(e)
    case Ok(None) => NoLog
    case Ok(Some(p)) =>
      FindLogNewest(cfg.allowedExtensions, names);
      if !cfg.reportDir.CStr? then Failed(TypeError("REPORT_DIR"))
      else
        var path := ReportPath(cfg.reportDir.s, p.date);
        if path in existing then AlreadyDone(path)
        else
          var st := ParseLog(cfg.matcher, contents(p.path));
          match CalculateStatistics(st.yielded, parseFloat)
          case Err(e) => Failed(StatsFailed(e))
          case Ok(stats) =>
            if st.total > 0 && !cfg.allowedErrorsPercent.CInt? then Failed(TypeError("ALLOWED_ERRORS_PERCENT"))
            else if cfg.allowedErrorsPercent.CInt? && BudgetExceeded(st, cfg.allowedErrorsPercent.i) then Failed(TooManyErrors)
            else
              match ReportOf(cfg.reportSize, Report(stats))
              case None => Failed(TypeError("REPORT_SIZE"))
              case Some(report) => Wrote(path, report)
  }

  /** A written report sits at the path of the newest allowed log's date,
      the same path the existence check looks at. */
  lemma RunWritesNewest(cfg: Settings, names: seq<string>, existing: set<string>, contents: string -> seq<string>,
                        parseFloat: FloatParser)
    requires Run(cfg, names, existing, contents, parseFloat).Wrote?
    ensures ExtensionsOf(cfg.allowedExtensions).Some? && cfg.reportDir.CStr?
    ensures var r := FindLastLog(names, ExtensionsOf(cfg.allowedExtensions).value);
      && r.Ok? && r.value.Some?
      && Valid(r.value.value.date)
      && Run(cfg, names, existing, contents, parseFloat).path == ReportPath(cfg.reportDir.s, r.value.value.date)
      && ReportPath(cfg.reportDir.s, r.value.value.date) !in existing
      && exists k :: NewestAt(names, ExtensionsOf(cfg.allowedExtensions).value, r.value.value, k)
  {
    FindLogNewest(cfg.allowedExtensions, names);
  }

  /** Running again after a report was written does nothing. */
  lemma RunIdempotent(cfg: Settings, names: seq<string>, existing: set<string>, contents: string -> seq<string>,
                      parseFloat: FloatParser)
    requires Run(cfg, names, existing, contents, parseFloat).Wrote?
    ensures var path := Run(cfg, names, existing, contents, parseFloat).path;
      Run(cfg, names, existing + {path}, contents, parseFloat) == AlreadyDone(path)
  {
    FindLogNewest(cfg.allowedExtensions, names);
  }

  /** The first matching name decides a scan whose extensions cannot be
      searched. */
  lemma FindLogTypeError(v: ConfigValue, names: seq<string>)
    requires ExtensionsOf(v).None?
    ensures FindLog(v, names) == Err(TypeError("ALLOWED_EXTENSIONS")) <==>
      exists i :: 0 <= i < |names| && Dated(names[i]) && forall j :: 0 <= j < i ==> MatchName(names[j]).None?
  {
    if FirstMatched(names).Some? {
      var i := FirstMatched(names).value;
      forall i' | 0 <= i' < |names| && Dated(names[i']) && forall j :: 0 <= j < i' ==> MatchName(names[j]).None?
        ensures i' == i
      {
      }
    }
  }

  /** When `ALLOWED_EXTENSIONS` is neither a list nor a string (a user
      value of digits), the run does nothing if no name matches the log
      pattern and otherwise fails at the first matching name: with its date
      error, or with a `TypeError` if its date is real. */
  lemma ExtensionsTypeError(cfg: Settings, names: seq<string>, existing: set<string>,
                            contents: string -> seq<string>, parseFloat: FloatParser)
    requires !cfg.allowedExtensions.CList? && !cfg.allowedExtensions.CStr?
    ensures var out := Run(cfg, names, existing, contents, parseFloat);
      && (out == NoLog <==> forall i :: 0 <= i < |names| ==> MatchName(names[i]).None?)
      && (out == Failed(TypeError("ALLOWED_EXTENSIONS")) <==>
            exists i :: 0 <= i < |names| && Dated(names[i]) && forall j :: 0 <= j < i ==> MatchName(names[j]).None?)
      && (out.NoLog? || out.Failed?)
  {
    FindLogTypeError(cfg.allowedExtensions, names);
  }

  /** A `REPORT_DIR` that is not a string (a user value of digits) fails
      the run as soon as a log is found. */
  lemma ReportDirTypeError(cfg: Settings, names: seq<string>, existing: set<string>,
                           contents: string -> seq<string>, parseFloat: FloatParser)
    requires FindLog(cfg.allowedExtensions, names).Ok? && FindLog(cfg.allowedExtensions, names).value.Some?
    ensures !cfg.reportDir.CStr? <==> Run(cfg, names, existing, contents, parseFloat) == Failed(TypeError("REPORT_DIR"))
  {
  }

  /** Once the statistics are computed, a non-integer
      `ALLOWED_ERRORS_PERCENT` fails the run exactly when the log has a
      line: for an empty log the check never reads it. */
  lemma PercentTypeError(cfg: Settings, names: seq<string>, existing: set<string>,
                         contents: string -> seq<string>, parseFloat: FloatParser)
    requires FindLog(cfg.allowedExtensions, names).Ok? && FindLog(cfg.allowedExtensions, names).value.Some?
    requires cfg.reportDir.CStr?
    requires var p := FindLog(cfg.allowedExtensions, names).value.value;
      (FindLogNewest(cfg.allowedExtensions, names);
       && ReportPath(cfg.reportDir.s, p.date) !in existing
       && CalculateStatistics(ParseLog(cfg.matcher, contents(p.path)).yielded, parseFloat).Ok?)
    ensures var p := FindLog(cfg.allowedExtensions, names).value.value;
      var failed := Run(cfg, names, existing, contents, parseFloat) == Failed(TypeError("ALLOWED_ERRORS_PERCENT"));
      failed <==> !cfg.allowedErrorsPercent.CInt? && |contents(p.path)| > 0
  {
    FindLogNewest(cfg.allowedExtensions, names);
  }

  /** Past the error budget, a `REPORT_SIZE` that is a string fails the run,
      and `None` keeps every row. */
  lemma ReportSizeTypeError(cfg: Settings, names: seq<string>, existing: set<string>,
                            contents: string -> seq<string>, parseFloat: FloatParser)
    requires FindLog(cfg.allowedExtensions, names).Ok? && FindLog(cfg.allowedExtensions, names).value.Some?
    requires cfg.reportDir.CStr? && cfg.allowedErrorsPercent.CInt?
    requires var p := FindLog(cfg.allowedExtensions, names).value.value;
      (FindLogNewest(cfg.allowedExtensions, names);
       var st := ParseLog(cfg.matcher, contents(p.path));
       && ReportPath(cfg.reportDir.s, p.date) !in existing
       && CalculateStatistics(st.yielded, parseFloat).Ok?
       && !BudgetExceeded(st, cfg.allowedErrorsPercent.i))
    ensures var out := Run(cfg, names, existing, contents, parseFloat);
      && (out == Failed(TypeError("REPORT_SIZE")) <==> cfg.reportSize.CStr? || cfg.reportSize.CList?)
      && (cfg.reportSize.CNone? ==> var p := FindLog(cfg.allowedExtensions, names).value.value;
            out.Wrote? && |out.report| == |Report(CalculateStatistics(ParseLog(cfg.matcher, contents(p.path)).yielded, parseFloat).value)|)
  {
    FindLogNewest(cfg.allowedExtensions, names);
  }

  /** An exception in the statistics loop wins over the error budget. */
  lemma StatsErrorFirst(cfg: Settings, names: seq<string>, existing: set<string>, contents: string -> seq<string>,
                        parseFloat: FloatParser)
    requires FindLog(cfg.allowedExtensions, names).Ok? && FindLog(cfg.allowedExtensions, names).value.Some?
    requires cfg.reportDir.CStr?
    requires var p := FindLog(cfg.allowedExtensions, names).value.value;
      (FindLogNewest(cfg.allowedExtensions, names);
       ReportPath(cfg.reportDir.s, p.date) !in existing
       && CalculateStatistics(ParseLog(cfg.matcher, contents(p.path)).yielded, parseFloat).Err?)
    ensures var p := FindLog(cfg.allowedExtensions, names).value.value;
      Run(cfg, names, existing, contents, parseFloat)
        == Failed(StatsFailed(CalculateStatistics(ParseLog(cfg.matcher, contents(p.path)).yielded, parseFloat).error))
  {
  }

  /** An empty log file still produces a report, with no rows, whatever
      `ALLOWED_ERRORS_PERCENT` holds. */
  lemma EmptyLogWritesEmptyReport(cfg: Settings, names: seq<string>, existing: set<string>,
                                  contents: string -> seq<string>, parseFloat: FloatParser)
    requires FindLog(cfg.allowedExtensions, names).Ok? && FindLog(cfg.allowedExtensions, names).value.Some?
    requires cfg.reportDir.CStr? && (cfg.reportSize.CInt? || cfg.reportSize.CNone?)
    requires var p := FindLog(cfg.allowedExtensions, names).value.value;
      (FindLogNewest(cfg.allowedExtensions, names);
       ReportPath(cfg.reportDir.s, p.date) !in existing && contents(p.path) == [])
    ensures Run(cfg, names, existing, contents, parseFloat).Wrote?
    ensures Run(cfg, names, existing, contents, parseFloat).report == []
  {
  }
}

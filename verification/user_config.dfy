/** The analyzer's configuration: built-in defaults, overridden by a user
    file of `key=value` lines.

    A line contributes after its trailing whitespace is stripped, unless it
    has no `=` or starts with `#`.  The key is the text before the first
    `=`, upper-cased; the value is the rest, an integer when it is a
    non-empty run of digits.  Later lines overwrite earlier ones, and the
    user's keys overwrite the defaults. */
module UserConfig {
  import opened Wrappers
  import opened Text

  /** The values a configuration holds: those a user line produces
      (integers and strings) and those the built-in defaults use. */
  datatype ConfigValue = CInt(i: nat) | CStr(s: string) | CNone | CList(items: seq<string>)

  type Config = map<string, ConfigValue>

  /** `int(v) if v.isdigit() else v`. */
  function Coerce(v: string): (r: ConfigValue)
    ensures r.CInt? || r.CStr?
    ensures r.CInt? <==> |v| > 0 && AllDigits(v)
    ensures r.CStr? ==> r.s == v
  {
    if |v| > 0 && AllDigits(v) then CInt(DigitsValue(v)) else CStr(v)
  }

  /** An integer value is the line's digits read in base ten: writing it
      back with as many digits gives the text of the line again. */
  lemma CoerceReadsDigits(v: string)
    requires Coerce(v).CInt?
    ensures Coerce(v).i < Pow10(|v|) && Padded(Coerce(v).i, |v|) == v
  {
    DigitsRoundTrip(v);
  }

  /** What one line of the file contributes: nothing, or a key and value. */
  function ConfigLine(line: string): (r: Option<(string, ConfigValue)>)
    ensures r.None? <==> '=' !in RStrip(line) || RStrip(line)[0] == '#'
    ensures r.Some? ==> '=' in RStrip(line) && |r.value.0| < |RStrip(line)|
  {
    var stripped := RStrip(line);
    if '=' !in stripped then None
    else if stripped[0] == '#' then None
    else
      var (k, v) := SplitFirst(stripped, '=');
      Some((Upper(k), Coerce(v)))
  }

  /** The key is the upper-cased text up to the first `=`; the value is all
      the rest, which may hold further `=` characters. */
  lemma ConfigLineSplit(line: string, before: string, after: string)
    requires RStrip(line) == before + "=" + after && '=' !in before
    requires before == [] || before[0] != '#'
    ensures ConfigLine(line) == Some((Upper(before), Coerce(after)))
  {
    SplitFirstUnique(RStrip(line), '=', before, after);
    assert RStrip(line)[0] == if before == [] then '=' else before[0];
  }

  /** A comment line contributes nothing, even when it holds `=`. */
  lemma CommentIgnored(line: string)
    requires |line| > 0 && line[0] == '#'
    ensures ConfigLine(line) == None
  {
    var s := RStrip(line);
    if s == [] {
      assert IsSpace(line[0]);
    }
  }

  type Contribution = Option<(string, ConfigValue)>

  /** Apply the contributions of the lines in turn. */
  function AssignAll(cs: seq<Contribution>): Config {
    if cs == [] then map[]
    else
      var cfg := AssignAll(cs[..|cs| - 1]);
      match cs[|cs| - 1]
      case None => cfg
      case Some(kv) => cfg[kv.0 := kv.1]
  }

  /** What each line contributes. */
  function Contributions(lines: seq<string>): (cs: seq<Contribution>)
    ensures |cs| == |lines|
    ensures forall i :: 0 <= i < |lines| ==> cs[i] == ConfigLine(lines[i])
  {
    seq(|lines|, i requires 0 <= i < |lines| => ConfigLine(lines[i]))
  }

  /** `parse_user_config` over the lines of the file. */
  function ParseUserConfig(lines: seq<string>): Config {
    AssignAll(Contributions(lines))
  }

  /** Contribution `i` assigns key `k`. */
  predicate Sets(cs: seq<Contribution>, i: int, k: string)
    requires 0 <= i < |cs|
  {
    cs[i].Some? && cs[i].value.0 == k
  }

  lemma {:induction false} AssignAllLastWins(cs: seq<Contribution>, k: string)
    ensures k in AssignAll(cs) <==> exists i :: 0 <= i < |cs| && Sets(cs, i, k)
    ensures k in AssignAll(cs) ==> (exists i :: (0 <= i < |cs|
      && cs[i] == Some((k, AssignAll(cs)[k]))
      && forall j :: i < j < |cs| ==> !Sets(cs, j, k)))
  {
    if cs != [] {
      var n := |cs| - 1;
      var init := cs[..n];
      var before := AssignAll(init);
      AssignAllLastWins(init, k);
      if Sets(cs, n, k) {
        assert AssignAll(cs)[k] == cs[n].value.1;
      } else {
        assert k in AssignAll(cs) <==> k in before;
        assert k in before ==> AssignAll(cs)[k] == before[k];
        if exists i :: 0 <= i < |cs| && Sets(cs, i, k) {
          var i :| 0 <= i < |cs| && Sets(cs, i, k);
          assert Sets(init, i, k);
        }
        if k in before {
          var i :| 0 <= i < n && init[i] == Some((k, before[k]))
            && forall j :: i < j < n ==> !Sets(init, j, k);
          assert cs[i] == init[i] && Sets(cs, i, k);
          forall j | i < j < |cs|
            ensures !Sets(cs, j, k)
          {
            if j < n {
              assert !Sets(init, j, k);
            }
          }
        }
      }
    }
  }

  /** Line `i` assigns key `k`. */
  predicate LineSets(lines: seq<string>, i: int, k: string)
    requires 0 <= i < |lines|
  {
    ConfigLine(lines[i]).Some? && ConfigLine(lines[i]).value.0 == k
  }

  /** Every key some line assigns is in the result, holding the value of
      the last line that assigns it, and no other key is. */
  lemma ParseUserConfigLastWins(lines: seq<string>, k: string)
    ensures k in ParseUserConfig(lines) <==> exists i :: 0 <= i < |lines| && LineSets(lines, i, k)
    ensures k in ParseUserConfig(lines) ==> (exists i :: (0 <= i < |lines|
      && ConfigLine(lines[i]) == Some((k, ParseUserConfig(lines)[k]))
      && forall j :: i < j < |lines| ==> !LineSets(lines, j, k)))
  {
    var cs := Contributions(lines);
    AssignAllLastWins(cs, k);
    assert forall i :: 0 <= i < |lines| ==> (LineSets(lines, i, k) <==> Sets(cs, i, k));
  }

  /** Lines that contribute nothing leave the result unchanged. */
  lemma ParseUserConfigSkips(lines: seq<string>, line: string)
    requires ConfigLine(line).None?
    ensures ParseUserConfig(lines + [line]) == ParseUserConfig(lines)
  {
    var cs := Contributions(lines);
    var all := lines + [line];
    var cs' := Contributions(all);
    assert cs'[..|lines|] == cs;
  }

  /** `{**defaults, **user}`. */
  function Merge(defaults: Config, user: Config): (r: Config)
    ensures r.Keys == defaults.Keys + user.Keys
    ensures forall k :: k in user ==> r[k] == user[k]
    ensures forall k :: k in defaults && k !in user ==> r[k] == defaults[k]
  {
    defaults + user
  }

  /** Merging the same user settings twice changes nothing, and an empty
      user file leaves the defaults as they are. */
  lemma MergeIdempotent(defaults: Config, user: Config)
    ensures Merge(Merge(defaults, user), user) == Merge(defaults, user)
    ensures Merge(defaults, map[]) == defaults
  {
  }

  /** The defaults of the first version of the analyzer. */
  const FirstDefaults: Config := map[
    "REPORT_SIZE" := CInt(1000),
    "REPORT_DIR" := CStr("./reports"),
    "LOG_DIR" := CStr("./log"),
    "ALLOWED_ERRORS_PERCENT" := CInt(15)]

  /** `get_actual_config` of the first version: the defaults without a path,
      otherwise the defaults overlaid with the file's lines.  A missing file
      raises the `open` error, given here as `None` from `readFile`. */
  function FirstActualConfig(path: Option<string>, readFile: string -> Option<seq<string>>): (r: Option<Config>)
    ensures path.None? ==> r == Some(FirstDefaults)
    ensures path.Some? ==> (r.None? <==> readFile(path.value).None?)
    ensures r.Some? ==> FirstDefaults.Keys <= r.value.Keys
  {
    match path
    case None => Some(FirstDefaults)
    case Some(p) =>
      match readFile(p)
      case None => None
      case Some(lines) => Some(Merge(FirstDefaults, ParseUserConfig(lines)))
  }

  /** The defaults of the full analyzer.  The text of its `LOG_REGEXP`
      pattern is a parameter: patterns are not interpreted here. */
  function AnalyzerDefaults(logRegexp: string): Config {
    map[
      "REPORT_SIZE" := CInt(1000),
      "REPORT_DIR" := CStr("./reports"),
      "LOG_DIR" := CStr("./log"),
      "SELF_LOG_DIR" := CNone,
      "REPORT_TEMPLATE_DIR" := CStr("./resources"),
      "LOG_REGEXP" := CStr(logRegexp),
      "ALLOWED_ERRORS_PERCENT" := CInt(15),
      "ALLOWED_EXTENSIONS" := CList(["", ".gz"]),
      "LOG_ENCODING" := CStr("utf-8"),
      "LOGGING_LEVEL" := CStr("DEBUG")]
  }

  datatype ConfigError = NoConfigFile(path: string)

  function ConfigErrorMessage(e: ConfigError): string {
    "There is no config file at " + e.path
  }

  /** `merge_configs` of the full analyzer. */
  function AnalyzerConfig(logRegexp: string, path: Option<string>, readFile: string -> Option<seq<string>>)
    : (r: Result<Config, ConfigError>)
    ensures path.None? ==> r == Ok(AnalyzerDefaults(logRegexp))
    ensures path.Some? ==> (r.Err? <==> readFile(path.value).None?)
    ensures r.Err? ==> r.error == NoConfigFile(path.value)
    ensures r.Ok? ==> AnalyzerDefaults(logRegexp).Keys <= r.value.Keys
  {
    match path
    case None => Ok(AnalyzerDefaults(logRegexp))
    case Some(p) =>
      match readFile(p)
      case None => Err(NoConfigFile(p))
      case Some(lines) => Ok(Merge(AnalyzerDefaults(logRegexp), ParseUserConfig(lines)))
  }

  lemma SizeLineStripped()
    ensures RStrip("report_SIZE=50\n") == "report_SIZE" + "=" + "50"
  {
    assert "report_SIZE=50\n"[..14] == "report_SIZE=50";
  }

  lemma SizeKeyUpper()
    ensures Upper("report_SIZE") == "REPORT_SIZE"
  {
  }

  lemma FiftyCoerced()
    ensures Coerce("50") == CInt(50)
  {
    DigitsValueShort("50");
  }

  lemma SizeLine()
    ensures ConfigLine("report_SIZE=50\n") == Some(("REPORT_SIZE", CInt(50)))
  {
    SizeLineStripped();
    SizeKeyUpper();
    FiftyCoerced();
    ConfigLineSplit("report_SIZE=50\n", "report_SIZE", "50");
  }

  lemma OneAssignment(lines: seq<string>, k: string, v: ConfigValue)
    requires |lines| == 3 && ConfigLine(lines[0]).None? && ConfigLine(lines[2]).None?
    requires ConfigLine(lines[1]) == Some((k, v))
    ensures ParseUserConfig(lines) == map[k := v]
  {
    var cs := Contributions(lines);
    assert cs[..2][..1] == [None] && cs[..2][..1][..0] == [];
    assert AssignAll(cs[..2][..1]) == map[];
    assert AssignAll(cs[..2]) == map[k := v];
  }

  lemma OverrideOne(logRegexp: string, k: string, v: ConfigValue)
    ensures Merge(AnalyzerDefaults(logRegexp), map[k := v]) == AnalyzerDefaults(logRegexp)[k := v]
  {
  }

  const SizeFile: seq<string> := ["#REPORT_SIZE=1", "report_SIZE=50\n", "x"]

  lemma SizeFileOuterLines()
    ensures ConfigLine(SizeFile[0]) == None && ConfigLine(SizeFile[2]) == None
  {
    CommentIgnored(SizeFile[0]);
    assert RStrip("x") == "x";
  }

  lemma SizeFileParsed()
    ensures ParseUserConfig(SizeFile) == map["REPORT_SIZE" := CInt(50)]
  {
    SizeFileOuterLines();
    SizeLine();
    OneAssignment(SizeFile, "REPORT_SIZE", CInt(50));
  }

  /** A user file setting `REPORT_SIZE` to 50, with a comment and a line
      without `=` around it. */
  lemma ReportSizeOverride(logRegexp: string, readFile: string -> Option<seq<string>>)
    requires readFile("cfg") == Some(SizeFile)
    ensures AnalyzerConfig(logRegexp, Some("cfg"), readFile)
         == Ok(AnalyzerDefaults(logRegexp)["REPORT_SIZE" := CInt(50)])
  {
    SizeFileParsed();
    OverrideOne(logRegexp, "REPORT_SIZE", CInt(50));
  }
}

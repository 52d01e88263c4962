# python-otus, modelled in Dafny

A model of the self-contained logic of the `python-otus` homework
repository, with proofs of what that logic promises:

- **Log analysis** (`hw_01/log_analyzer`): choosing the newest
  `nginx-access-ui.log-YYYYMMDD[.gz]` file from a directory listing, naming its
  report `report-YYYY.MM.DD.html`, the streaming parse of the log with its
  error budget, the per-URL statistics (count, sum, max, average, median and
  the two percentages), and the ranked, truncated report rows.
- **Configuration** (`homework_01/log_analyzer` and the same logic in
  `hw_01`): parsing `key=value` lines and merging them over the defaults.
- **Poker** (`hw_01/poker`): card ranks, flush, straight, n-of-a-kind, two
  pairs, the category ranking `hand_rank`, `best_hand` over all five-card
  combinations, and `best_wild_hand` with the black and red jokers.
- **Request validation, two versions** (`hw_03/scoring_api`, where a field
  raises on its first problem and the request gathers one message per field;
  `hw_04/api_testing`, where every problem is appended to one list in
  declaration order and `validate` joins it into one `ValueError`), with the
  value checks of every field class, the online-score pair rule, `has_attrs`,
  `is_admin`, `check_auth` and the status codes of `method_handler`.

Everything is pure: the directory listing, the file contents, the set of
existing reports, `float()`, the log-line regular expression, `sha512`, the
current hour and the 70-year birthday boundary are parameters. Request
bodies are a JSON-shaped `PyValue.Value` (`Null | Str | Int | Bool | Float |
List | Dict`), in which `Bool` counts as an integer for `isinstance` but keeps
its own `str()` and `==`. Where Python iterates over a `set`, the order is
either a parameter or irrelevant:

- the field names in `hw_03` and the pair order in `two_pair` are
  parameters, and the contracts hold for every order;
- `kind` takes the first matching rank in `ranks` order; wherever
  `hand_rank` uses its answer at most one rank has the asked count, so the
  set order cannot change it;
- the candidate cards of `best_wild_hand` form a set of strings, whose
  order CPython randomises per process; the model lists them in `product`
  order, a fixed choice (see "## Left out").

`PokerPairOrder` shows what CPython's actual set order does to two pairs
(see "## Findings").

Modules, one per file: `Wrappers` (Option/Result), `Text`, `Calendar`,
`Sorting`, `LogLocator`, `LogParser`, `LogStats`, `LogReport`, `LogPipeline`,
`UserConfig`, `Poker`, `PokerCategories`, `PokerBest`, `PokerPairOrder`, `PyValue`,
`FieldRules`, `ScoringApi` (`hw_03`), `TestingApi` (`hw_04`).

Where the written description of the system and its code differ, the model
follows the code:

- on equal log dates the name scanned first is kept (replacement needs a
  strictly newer date), whatever its extension;
- `count_perc`/`time_perc` use the running totals of the moment a URL was
  last updated, not the grand totals;
- an empty log still produces a report, with no rows;
- configuration values keep the types the merge gives them (a user value of
  digits is an int, anything else a str), and each is checked only where
  it is used: a str `ALLOWED_EXTENSIONS` is searched as a substring, and a
  value of the wrong type raises `TypeError` at its first use;
- in `hw_04`, field values live on the request class and carry over from one
  request to the next, and an unknown key in the body is an uncaught
  exception (it is raised outside the `try`).

## Model

| member | source | states |
|---|---|---|
| Calendar.BeforeIsStrictTotalOrder | hw_01/log_analyzer/src/log_analyzer.py:65 | date `<` is irreflexive, asymmetric, transitive and total |
| Calendar.CheckDate | hw_01/log_analyzer/src/log_analyzer.py:61 | constructing a date succeeds exactly for years 1..9999 and a day within the month (leap Februaries included) |
| Calendar.ParseCompact | hw_01/log_analyzer/src/log_analyzer.py:61 | `strptime(s, "%Y%m%d")` on eight digits succeeds exactly when YYYY/MM/DD is a valid date, and yields that date |
| Calendar.ParseDotted | hw_03/scoring_api/src/api.py:116 | `strptime(s, "%d.%m.%Y")` on a `dd.dd.dddd` text succeeds exactly when DD/MM/YYYY is a valid date, and yields that date |
| Calendar.CompactRoundTrip | hw_01/log_analyzer/src/log_analyzer.py:61-71 | a date read from eight digits is written by `strftime("%Y.%m.%d")` as those same digits regrouped |
| Calendar.FormatDottedInjective | hw_01/log_analyzer/src/log_analyzer.py:71 | distinct dates give distinct `%Y.%m.%d` texts |
| Text.PaddedRoundTrip | hw_01/log_analyzer/src/log_analyzer.py:71 | a zero-padded number has the requested width, only digits, and reads back as the number |
| Text.DigitsRoundTrip | hw_01/log_analyzer/src/log_analyzer.py:59-61 | writing back the number a digit string spells, at its width, gives the string (leading zeros kept) |
| Text.NatToStringRoundTrip | hw_03/scoring_api/src/api.py:99 | `str(n)` reads back as `n` |
| Text.NatToStringLength | hw_03/scoring_api/src/api.py:99 | `str(n)` has no leading zero, so its length fixes the range of `n` |
| Text.IntToString | hw_03/scoring_api/src/api.py:99 | `str(i)` is digits spelling `i` without a leading zero, preceded by a minus sign exactly when `i` is negative |
| Text.RStrip | homework_01/log_analyzer/src/ru/otus/python/log_analyzer.py:39 | `rstrip()` removes exactly the trailing whitespace and keeps a prefix |
| Text.UpperChar | homework_01/log_analyzer/src/ru/otus/python/log_analyzer.py:47 | a lower-case letter moves to its capital; any other character stays; the result is never lower-case |
| Text.Upper | homework_01/log_analyzer/src/ru/otus/python/log_analyzer.py:47 | `upper()` keeps the length, capitalises each lower-case letter, keeps every other character, and leaves no lower-case letter |
| Text.UpperIdempotent | homework_01/log_analyzer/src/ru/otus/python/log_analyzer.py:47 | upper-casing twice is upper-casing once |
| Text.SplitFirst | homework_01/log_analyzer/src/ru/otus/python/log_analyzer.py:46 | `split("=", 1)` gives the text before the first `=` and the whole rest |
| Text.SplitFirstUnique | homework_01/log_analyzer/src/ru/otus/python/log_analyzer.py:46 | any decomposition around a first `=` is the one the split returns |
| LogLocator.UpToNewline | hw_01/log_analyzer/src/log_analyzer.py:59 | `(.*)` captures the longest prefix without a line break |
| LogLocator.MatchName | hw_01/log_analyzer/src/log_analyzer.py:59 | a name matches exactly when it starts with the prefix pattern (its `.` a wildcard) and eight digits; the groups are the digits and the rest up to a line break |
| LogLocator.FindLastLogRaises | hw_01/log_analyzer/src/log_analyzer.py:55-66 | the scan raises exactly when some matching name has an impossible date, with the error of the first such name, whatever its extension |
| LogLocator.FindLastLogNothing | hw_01/log_analyzer/src/log_analyzer.py:55-66 | the result is `None` exactly when no name raises and none is a dated match with an allowed extension |
| LogLocator.ScanStepChoice | hw_01/log_analyzer/src/log_analyzer.py:60-65 | one step replaces the choice only by a strictly newer allowed log, and keeps it against an equal or older one |
| LogLocator.FindLastLogNewest | hw_01/log_analyzer/src/log_analyzer.py:62-65 | a selected log has an allowed extension and a valid date, no allowed log is newer, and every allowed log scanned before it is strictly older |
| LogLocator.FindLastLogIgnores | hw_01/log_analyzer/src/log_analyzer.py:60-63 | a name that does not match, or whose extension is not allowed, changes nothing |
| LogLocator.TextAllowsPieces | hw_01/log_analyzer/src/log_analyzer.py:62 | a str of extensions allows the empty extension, itself and each piece of itself, and nothing longer |
| LogLocator.TextAllowsListItem | hw_01/log_analyzer/src/log_analyzer.py:62 | a str allows everything the one-item list holding it allows |
| LogLocator.TextExtensionsExample | hw_01/log_analyzer/src/log_analyzer.py:62 | `ALLOWED_EXTENSIONS=.gz` from a user file admits plain logs, `.gz`, `.g` and `gz`, but not `.bz2`; the default list does not admit `gz` |
| LogLocator.FirstMatched | hw_01/log_analyzer/src/log_analyzer.py:58-61 | the first name the log pattern matches, and `None` exactly when none does |
| LogLocator.FindLastLogSnoc | hw_01/log_analyzer/src/log_analyzer.py:57-66 | the scan over one more name is one more step, after an error nothing |
| LogLocator.NameParts | hw_01/log_analyzer/src/log_analyzer.py:59 | prefix + eight digits + an extension without line breaks matches with exactly those groups |
| LogLocator.ScanNamed | hw_01/log_analyzer/src/log_analyzer.py:59-65 | the step on such a name: raise on a bad date, take it when allowed and strictly newer, else keep |
| LogLocator.ExampleDates | hw_01/log_analyzer/src/log_analyzer.py:61 | 20170629, 20170630 and 20170701 read as dates; 20170231 raises "day out of range" |
| LogLocator.NewerReplacesExample | hw_01/log_analyzer/src/log_analyzer.py:65 | a newer `.gz` log replaces an older plain one |
| LogLocator.TieKeepsFirstExample | hw_01/log_analyzer/src/log_analyzer.py:65 | on equal dates the first name scanned is kept |
| LogLocator.BadDateRaisesExample | hw_01/log_analyzer/src/log_analyzer.py:61-62 | an impossible date raises even with an extension that is not allowed |
| LogLocator.ReportNameOfLog | hw_01/log_analyzer/src/log_analyzer.py:69-72 | the report of a log is `report-` + its digits as YYYY.MM.DD + `.html` |
| LogLocator.ReportNameInjective | hw_01/log_analyzer/src/log_analyzer.py:71 | different log dates never share a report name |
| LogParser.ParseLine | hw_01/log_analyzer/src/log_analyzer.py:106-111 | a line is accepted exactly when the pattern matches with at least one named group (an empty named tuple is falsy), and yields the group dictionary |
| LogParser.ParseLog | hw_01/log_analyzer/src/log_analyzer.py:117-124 | `total` counts every line, `processed` counts the yielded records |
| LogParser.AcceptedAppend | hw_01/log_analyzer/src/log_analyzer.py:119-124 | the accepted records of two runs of lines are concatenated in order |
| LogParser.ParseLogYieldsAccepted | hw_01/log_analyzer/src/log_analyzer.py:119-124 | the fold yields exactly the accepted lines' records, in input order |
| LogParser.ParseLogSound | hw_01/log_analyzer/src/log_analyzer.py:119-124 | a record is yielded exactly when some line parses to it |
| LogParser.BudgetMeansRejectedShare | hw_01/log_analyzer/src/log_analyzer.py:126-127 | the final check fails exactly when the input is non-empty and the rejected lines exceed the allowed percentage |
| LogParser.EmptyLogNeverRaises | hw_01/log_analyzer/src/log_analyzer.py:126-127 | an empty log yields nothing and never raises |
| LogParser.AllAcceptedNeverRaises | hw_01/log_analyzer/src/log_analyzer.py:126-127 | a fully parsed log never raises for a non-negative allowance |
| LogParser.AllRejectedRaises | hw_01/log_analyzer/src/log_analyzer.py:126-127 | a non-empty, fully rejected log raises exactly when the allowance is under 100 percent |
| LogStats.ReadEntry | hw_01/log_analyzer/src/log_analyzer.py:136-140 | a record reads when `request_time` exists and is a float and `url` exists; otherwise the first of those failures, in that order |
| LogStats.Step | hw_01/log_analyzer/src/log_analyzer.py:135-161 | one iteration fails exactly when the running total time becomes zero |
| LogStats.StepWellFormed | hw_01/log_analyzer/src/log_analyzer.py:139-152 | one iteration keeps the dictionaries aligned, adds the URL (at the end when new) and leaves every other row alone |
| LogStats.StepRowNew | hw_01/log_analyzer/src/log_analyzer.py:143-161 | a new URL gets count 1, its time as sum, max and median, and percentages against the running totals |
| LogStats.StepRowSeen | hw_01/log_analyzer/src/log_analyzer.py:146-161 | a known URL's row is recomputed from all its times so far and the running totals |
| LogStats.StepDescribes | hw_01/log_analyzer/src/log_analyzer.py:135-161 | one iteration keeps the state equal to the reference rows of the entries seen |
| LogStats.CalculateStatistics | hw_01/log_analyzer/src/log_analyzer.py:130-163 | a successful loop leaves a well-formed state |
| LogStats.CalculateStatisticsReads | hw_01/log_analyzer/src/log_analyzer.py:135-140 | a successful loop read every record |
| LogStats.CalculateStatisticsDescribes | hw_01/log_analyzer/src/log_analyzer.py:130-163 | a successful loop holds, per URL, the reference row: count, sum, max, average, median and percentages at its last entry |
| LogStats.CalculateStatisticsSucceeds | hw_01/log_analyzer/src/log_analyzer.py:130-163 | the loop succeeds when every record reads and no running total time is zero |
| LogStats.CalculateStatisticsMeaning | hw_01/log_analyzer/src/log_analyzer.py:130-163 | success exactly when every record reads and no running total time is zero; then the reference rows |
| LogStats.Report | hw_01/log_analyzer/src/log_analyzer.py:163 | `values()` lists one row per key in insertion order |
| LogStats.ReportRows | hw_01/log_analyzer/src/log_analyzer.py:152-163 | the rows are one per distinct URL, in order of first appearance, each its reference row |
| LogStats.FirstSeenTimes | hw_01/log_analyzer/src/log_analyzer.py:143-147 | a URL is in the statistics exactly when it has times |
| LogStats.FirstSeenDistinct | hw_01/log_analyzer/src/log_analyzer.py:152 | the dictionary lists each URL once, and exactly the URLs present |
| LogStats.MaxOfSnoc | hw_01/log_analyzer/src/log_analyzer.py:151 | the update `time_max if time_max - t > 0 else t` is the maximum of the times |
| LogStats.MaxOfIsMaximum | hw_01/log_analyzer/src/log_analyzer.py:151 | the maximum is one of the times and bounds them all |
| LogStats.MaxOfNeverDecreases | hw_01/log_analyzer/src/log_analyzer.py:151 | `time_max` never decreases and covers the new time |
| LogStats.MedianBetween | hw_01/log_analyzer/src/log_analyzer.py:160 | the median lies between the smallest and the largest time |
| LogStats.MedianOrderFree | hw_01/log_analyzer/src/log_analyzer.py:160 | the median depends only on the multiset of times |
| LogStats.MedianOddExample | hw_01/log_analyzer/src/log_analyzer.py:160 | the median of three is the middle value |
| LogStats.MedianEvenExample | hw_01/log_analyzer/src/log_analyzer.py:160 | the median of two is their mean |
| LogStats.FinalUrlUsesGrandTotals | hw_01/log_analyzer/src/log_analyzer.py:155-157 | the URL of the final record has percentages against the grand totals |
| LogStats.RunningPercentagesExample | hw_01/log_analyzer/src/log_analyzer.py:152-157 | two single requests get 100 and 50 percent: the percentages are running ones |
| LogStats.ZeroTimeRaises | hw_01/log_analyzer/src/log_analyzer.py:157 | a first request with zero time divides by zero |
| Sorting.SortDesc | hw_01/log_analyzer/src/log_analyzer.py:169 | `sorted(key, reverse=True)` returns a permutation in non-increasing key order |
| Sorting.SortDescStable | hw_01/log_analyzer/src/log_analyzer.py:169 | elements with equal keys keep their input order |
| Sorting.SortedUnique | hw_01/log_analyzer/src/log_analyzer.py:160 | two non-increasing orderings of the same multiset are equal |
| LogReport.SliceTo | hw_01/log_analyzer/src/log_analyzer.py:169 | `s[:n]` is a prefix of length `min(n, len)`, counting a negative `n` from the end |
| LogReport.RowFields | hw_01/log_analyzer/src/log_analyzer.py:24 | `_asdict()` lists url, count, count_perc, time_sum, time_perc, time_avg, time_max, time_med in that order |
| LogReport.RowFieldsRoundTrip | hw_01/log_analyzer/src/log_analyzer.py:170 | every field of a row survives into its report record |
| LogReport.PrepareJson | hw_01/log_analyzer/src/log_analyzer.py:166-172 | one record per ranked row, each reading back as that row |
| LogReport.RankShape | hw_01/log_analyzer/src/log_analyzer.py:169 | the report has `min(REPORT_SIZE, #urls)` rows, non-increasing in `time_sum`, all from the input |
| LogReport.RankKeepsAll | hw_01/log_analyzer/src/log_analyzer.py:169 | with room for all rows, the report is a permutation of them |
| LogReport.RankCutsSmallest | hw_01/log_analyzer/src/log_analyzer.py:169 | no row cut off has a larger `time_sum` than a row kept |
| LogReport.RankStable | hw_01/log_analyzer/src/log_analyzer.py:169 | rows with equal `time_sum` keep their first-appearance order, and the report holds a leading run of them |
| LogPipeline.SettingsOf | hw_01/log_analyzer/src/log_analyzer.py:27-45 | the entries a run reads are taken as they are, of whatever type; absent only when a key is missing |
| LogPipeline.ConfigGivesSettings | hw_01/log_analyzer/src/log_analyzer.py:75-96 | every configuration `merge_configs` returns holds all the entries a run reads |
| LogPipeline.DefaultSettings | hw_01/log_analyzer/src/log_analyzer.py:27-45 | the defaults are 1000 rows, `./reports`, 15 percent, plain and `.gz` |
| LogPipeline.ExtensionsOf | hw_01/log_analyzer/src/log_analyzer.py:62 | `ext in` a list is membership, `ext in` a str is a substring test, and other values cannot be searched |
| LogPipeline.FindLog | hw_01/log_analyzer/src/log_analyzer.py:55-66 | with a list or a str, the scan of `LogLocator`; otherwise nothing when no name matches, and else the first matching name's date error or a `TypeError` |
| LogPipeline.FindLogDateError | hw_01/log_analyzer/src/log_analyzer.py:57-61 | a date error is the one of the first name whose date is impossible, whatever the extensions |
| LogPipeline.FindLogNewest | hw_01/log_analyzer/src/log_analyzer.py:62-65 | a found log has a valid date, an allowed extension, and is the newest allowed log, the first scanned among equals |
| LogPipeline.FindLogTypeError | hw_01/log_analyzer/src/log_analyzer.py:58-62 | with unsearchable extensions the scan raises `TypeError` exactly when the first matching name has a real date |
| LogPipeline.ReportOf | hw_01/log_analyzer/src/log_analyzer.py:169 | `[:REPORT_SIZE]` keeps `min(n, #rows)` rows for an int `n`, all rows for `None`, and raises for a str or list |
| LogPipeline.Run | hw_01/log_analyzer/src/log_analyzer.py:213-234 | the run stops with no log exactly when the scan finds none, a scan error ends it, and a report is looked for or written only under a str `REPORT_DIR` |
| LogPipeline.RunWritesNewest | hw_01/log_analyzer/src/log_analyzer.py:186-194 | a written report is at the path the existence check tests, for the newest allowed log, and did not exist |
| LogPipeline.RunIdempotent | hw_01/log_analyzer/src/log_analyzer.py:225-228 | once the report exists, a second run does nothing |
| LogPipeline.ExtensionsTypeError | hw_01/log_analyzer/src/log_analyzer.py:55-66 | with an int `ALLOWED_EXTENSIONS` the run does nothing exactly when no name matches, and fails with `TypeError` exactly when the first match has a real date |
| LogPipeline.ReportDirTypeError | hw_01/log_analyzer/src/log_analyzer.py:69-72 | once a log is found, the run fails with `TypeError` exactly when `REPORT_DIR` is not a str |
| LogPipeline.PercentTypeError | hw_01/log_analyzer/src/log_analyzer.py:126 | after the statistics, a non-int `ALLOWED_ERRORS_PERCENT` fails the run exactly when the log has a line |
| LogPipeline.ReportSizeTypeError | hw_01/log_analyzer/src/log_analyzer.py:166-172 | past the budget, the run fails with `TypeError` exactly when `REPORT_SIZE` is a str or a list, and `None` keeps every row |
| LogPipeline.StatsErrorFirst | hw_01/log_analyzer/src/log_analyzer.py:181-185 | an exception in the statistics loop ends the run before the parse-error budget is checked |
| LogPipeline.EmptyLogWritesEmptyReport | hw_01/log_analyzer/src/log_analyzer.py:230-234 | an empty log still gets a report, with no rows, whatever `ALLOWED_ERRORS_PERCENT` holds |
| UserConfig.Coerce | homework_01/log_analyzer/src/ru/otus/python/log_analyzer.py:47 | a value becomes an int exactly when it is non-empty and all digits, otherwise stays the same string |
| UserConfig.CoerceReadsDigits | homework_01/log_analyzer/src/ru/otus/python/log_analyzer.py:47 | an integer value is the digits read in base ten |
| UserConfig.ConfigLine | homework_01/log_analyzer/src/ru/otus/python/log_analyzer.py:39-47 | after `rstrip`, a line contributes nothing exactly when it has no `=` or starts with `#` |
| UserConfig.ConfigLineSplit | homework_01/log_analyzer/src/ru/otus/python/log_analyzer.py:46-47 | the key is the upper-cased text before the first `=`, the value all the rest |
| UserConfig.CommentIgnored | homework_01/log_analyzer/src/ru/otus/python/log_analyzer.py:43-44 | a `#` line contributes nothing even with `=` |
| UserConfig.AssignAllLastWins | homework_01/log_analyzer/src/ru/otus/python/log_analyzer.py:47 | a key is set exactly when some contribution sets it, to the value of the last one |
| UserConfig.ParseUserConfigLastWins | homework_01/log_analyzer/src/ru/otus/python/log_analyzer.py:35-48 | the parsed keys are exactly those some line sets, each with the last line's value |
| UserConfig.ParseUserConfigSkips | homework_01/log_analyzer/src/ru/otus/python/log_analyzer.py:41-44 | a line that contributes nothing leaves the result unchanged |
| UserConfig.OneAssignment | homework_01/log_analyzer/src/ru/otus/python/log_analyzer.py:38-47 | one setting line between two ignored ones gives a one-key configuration |
| UserConfig.SizeLine | homework_01/log_analyzer/src/ru/otus/python/log_analyzer.py:39-47 | `report_SIZE=50\n` sets `REPORT_SIZE` to the integer 50 |
| UserConfig.SizeFileParsed | homework_01/log_analyzer/src/ru/otus/python/log_analyzer.py:35-48 | a comment, a setting and a line without `=` give just the setting |
| UserConfig.Merge | homework_01/log_analyzer/src/ru/otus/python/log_analyzer.py:30-32 | the merged keys are the union; user values win, default-only keys are unchanged |
| UserConfig.MergeIdempotent | homework_01/log_analyzer/src/ru/otus/python/log_analyzer.py:30-32 | merging the same user settings twice changes nothing; an empty user file keeps the defaults |
| UserConfig.FirstActualConfig | homework_01/log_analyzer/src/ru/otus/python/log_analyzer.py:51-59 | no path gives the defaults; with a path it fails exactly when the file cannot be read, and keeps every default key |
| UserConfig.AnalyzerConfig | hw_01/log_analyzer/src/log_analyzer.py:75-96 | no path gives the defaults; a missing file is the "no config file" error; otherwise every default key is kept |
| UserConfig.OverrideOne | hw_01/log_analyzer/src/log_analyzer.py:96 | a one-key user file replaces just that key of the defaults |
| UserConfig.ReportSizeOverride | hw_01/log_analyzer/src/log_analyzer.py:81-96 | a file setting `report_SIZE=50` among ignored lines overrides only `REPORT_SIZE` |
| Poker.RankValue | hw_01/poker/src/poker.py:31-38 | every rank character has a value in 2..15 |
| Poker.RankValueOrder | hw_01/poker/src/poker.py:31-39 | the values count up from 2 along `23456789TJQKA?` |
| Poker.RankValueInjective | hw_01/poker/src/poker.py:31-38 | different rank characters have different values |
| Poker.RawRanks | hw_01/poker/src/poker.py:70 | each card's rank value, in hand order |
| Poker.CardRanks | hw_01/poker/src/poker.py:67-71 | the ranks keep their length and multiset and are sorted non-increasing |
| Poker.FlushMeaning | hw_01/poker/src/poker.py:74-76 | a flush is a non-empty hand with one suit character |
| Poker.StraightMeaning | hw_01/poker/src/poker.py:79-85 | a straight is a sequence whose neighbours all differ by exactly one |
| Poker.StraightIsRun | hw_01/poker/src/poker.py:79-85 | on sorted ranks, a straight counts down by one from the top; no ace-low case |
| Poker.Dedup | hw_01/poker/src/poker.py:91 | the set of ranks, each once |
| Poker.Select | hw_01/poker/src/poker.py:91 | the filter keeps exactly the candidates occurring `n` times |
| Poker.WithCount | hw_01/poker/src/poker.py:91 | the ranks occurring exactly `n` times, each once |
| Poker.KindMeaning | hw_01/poker/src/poker.py:88-92 | `kind` gives a rank occurring exactly `n` times, and `None` only when there is none |
| Poker.KindFound | hw_01/poker/src/poker.py:88-92 | a rank `kind` returns occurs in the ranks exactly `n` times |
| Poker.TwoPairMeaning | hw_01/poker/src/poker.py:95-99 | `two_pair` gives two ranks exactly when exactly two ranks are paired; they are distinct, are those pairs, and come lower first exactly when the set order says so |
| Poker.FourLeavesOne | hw_01/poker/src/poker.py:49-50 | four of a kind in five cards leaves a single card for `kind(1)` |
| Poker.HandRank | hw_01/poker/src/poker.py:44-64 | the category is in 0..8, fixes the tuple's length, and is 8 exactly for a straight flush |
| Poker.OrderOnlyInTwoPairs | hw_01/poker/src/poker.py:44-64 | the set order never changes the category, nor any tuple but the two pairs' |
| PokerCategories.FourOfAKind | hw_01/poker/src/poker.py:49-50 | category 7 exactly when some rank occurs four times |
| PokerCategories.FullHouse | hw_01/poker/src/poker.py:51-52 | category 6 exactly when one rank occurs three times and one twice |
| PokerCategories.ThreeOfAKind | hw_01/poker/src/poker.py:57-58 | category 3 exactly when a rank occurs three times and none twice |
| PokerCategories.TwoPairs | hw_01/poker/src/poker.py:59-60 | category 2 exactly when two ranks occur twice |
| PokerCategories.OnePair | hw_01/poker/src/poker.py:61-62 | category 1 exactly when one rank occurs twice and none three times |
| PokerCategories.NoRepeatedRank | hw_01/poker/src/poker.py:44-64 | categories 8, 5, 4 and 0 are exactly the hands with no repeated rank |
| PokerCategories.FlushHand | hw_01/poker/src/poker.py:47-54 | category 5 exactly for a flush that is no straight |
| PokerCategories.StraightHand | hw_01/poker/src/poker.py:47-56 | category 4 exactly for a straight that is no flush |
| PokerCategories.HighCard | hw_01/poker/src/poker.py:63-64 | category 0 exactly for a hand with no flush, no straight and no repeated rank |
| PokerCategories.NoFiveOfARank | hw_01/poker/src/poker.py:44-64 | five distinct cards never hold one rank five times |
| PokerCategories.TieBreaks | hw_01/poker/src/poker.py:47-64 | after the category: the top rank for 8 and 4; the four's rank and the kicker for 7; the three's and the pair's ranks for 6; the ranks for 5 and 0; the kind's rank then the ranks for 3 and 1; the two paired ranks in set order then the ranks for 2 |
| PokerBest.CombinationsMembers | hw_01/poker/src/poker.py:104 | the combinations are exactly the length-`k` subsequences |
| PokerBest.CombinationsCount | hw_01/poker/src/poker.py:104 | there are `n` choose `k` of them, at least one when `k <= n` |
| PokerBest.LexOrder | hw_01/poker/src/poker.py:104 | tuple comparison is a strict total order |
| PokerBest.ArgMax | hw_01/poker/src/poker.py:104-105 | the first position of a largest key |
| PokerBest.CodesInjective | hw_01/poker/src/poker.py:104 | equal card codes mean equal card lists |
| PokerBest.KeyInjective | hw_01/poker/src/poker.py:104 | different hands have different `(*hand_rank, cards)` keys |
| PokerBest.ComboKeys | hw_01/poker/src/poker.py:104 | one key per combination, in `combinations` order |
| PokerBest.BestHand | hw_01/poker/src/poker.py:102-105 | a five-card combination whose key no combination exceeds, for every pair order |
| PokerBest.BestHandIsBest | hw_01/poker/src/poker.py:102-105 | the best hand beats every five-card part, and any part no other beats is the best hand, for every pair order |
| PokerBest.SubseqDistinct | hw_01/poker/src/poker.py:121 | a combination of distinct cards has distinct cards |
| PokerBest.Variations | hw_01/poker/src/poker.py:39-41 | 26 cards: every rank in both suits, in `product` order |
| PokerBest.VariationsValid | hw_01/poker/src/poker.py:39-41 | the joker variations are real cards |
| PokerBest.RemoveFirst | hw_01/poker/src/poker.py:114 | `remove` takes one occurrence out |
| PokerBest.TakeJokers | hw_01/poker/src/poker.py:110-119 | one `?B` and one `?R` at most are removed and counted; each adds its colour's cards, and none are added without jokers |
| PokerBest.TakeRed | hw_01/poker/src/poker.py:116-119 | the red joker is removed and adds hearts and diamonds |
| PokerBest.Candidates | hw_01/poker/src/poker.py:121-124 | the joker-free hand plus each choice of replacements |
| PokerBest.WildBests | hw_01/poker/src/poker.py:123-125 | the best hand of each candidate, for every pair order |
| PokerBest.WildKeys | hw_01/poker/src/poker.py:125 | the `(category, cards)` key of each best hand |
| PokerBest.BestWildHand | hw_01/poker/src/poker.py:108-126 | one of those best hands, with no larger `(category, cards)` among them, for every pair order |
| PokerBest.WildHandIsBest | hw_01/poker/src/poker.py:121-126 | the result is the best hand of some choice of replacements, and no choice does better, for every pair order |
| PokerBest.WildReplacements | hw_01/poker/src/poker.py:120-121 | as many replacements as jokers removed, distinct, of those colours, absent from the hand |
| PokerPairOrder.DescendingUnique | hw_01/poker/src/poker.py:71 | two descending rank lists with the same elements are equal |
| PokerPairOrder.RanksFromRaw | hw_01/poker/src/poker.py:67-71 | `card_ranks` is the one descending arrangement of the hand's ranks |
| PokerPairOrder.PairedKey | hw_01/poker/src/poker.py:59-60 | a hand with exactly two pairs has a key starting with 2 and its pairs in set order |
| PokerPairOrder.SetOrderKeys | hw_01/poker/src/poker.py:95-104 | under CPython's set order, aces-and-nines keys below aces-and-sixes |
| PokerPairOrder.SetOrderMisranks | hw_01/poker/src/poker.py:102-105 | under CPython's set order, `best_hand` of AS AH 9S 9H 6S 6H 2C is not aces-and-nines with the six |
| PokerPairOrder.HighFirstRanksPairs | hw_01/poker/src/poker.py:95-104 | with the higher pair first, one two-pair hand keys below another exactly by a lower top pair, or an equal top pair and a lower second pair |
| PokerPairOrder.HighFirstExample | hw_01/poker/src/poker.py:102-105 | with the higher pair first, the same seven cards never give aces-and-sixes with the nine |
| PokerBest.WildWithoutJokers | hw_01/poker/src/poker.py:108-126 | without jokers `best_wild_hand` is `best_hand` |
| PyValue.Get | hw_03/scoring_api/src/api.py:170 | `d.get(k)` is the value, or `None` when missing |
| PyValue.FalsyValues | hw_03/scoring_api/src/api.py:64-66 | false values are the four empty literals and the zeros, so 0 is false without being empty |
| PyValue.BoolEqualsInt | hw_03/scoring_api/src/api.py:125 | `True`/`False` compare equal to 1/0 only |
| FieldRules.ParseBirthday | hw_03/scoring_api/src/api.py:116 | on a text of the date shape, `strptime` succeeds exactly on a valid `DD.MM.YYYY` date with no trailing newline, and yields that date |
| FieldRules.CheckValue | hw_03/scoring_api/src/api.py:75-132 | only the birthday class can raise from `strptime` |
| FieldRules.PhoneAccepts | hw_03/scoring_api/src/api.py:94-101 | a phone passes exactly as `7` and ten digits text, or an int from 70000000000 to 79999999999 |
| FieldRules.PhoneIntText | hw_03/scoring_api/src/api.py:99 | `str(i)` has the phone shape exactly for those integers |
| FieldRules.FormatDayFirstRoundTrip | hw_03/scoring_api/src/api.py:104-116 | every valid date written as `DD.MM.YYYY` passes the date shape and reads back as itself |
| FieldRules.DateShapeOnly | hw_04/api_testing/src/api.py:197-212 | the date field checks the shape only: a `DD.MM.YYYY` text whose day lies past the end of its month (31.02.2023) passes it, while the birthday field raises "day is out of range for month" |
| FieldRules.GenderAccepts | hw_03/scoring_api/src/api.py:121-126 | a gender passes exactly for 0, 1, 2 or a boolean |
| FieldRules.BirthdayAccepts | hw_03/scoring_api/src/api.py:112-118 | a birthday passes exactly when it is a valid `DD.MM.YYYY` date not older than the boundary |
| FieldRules.NonTextRejected | hw_04/api_testing/src/api.py:158-212 | the text classes answer any non-string with the `CharField` message alone |
| ScoringApi.CheckField | hw_03/scoring_api/src/api.py:61-67 | "presented" exactly for a required `None`; "empty" exactly otherwise for a non-nullable `''`, `None`, `[]` or `{}`; value checks only on true values |
| ScoringApi.ZeroPasses | hw_03/scoring_api/src/api.py:64-66 | `0` passes every field, non-nullable ones included |
| ScoringApi.Contribution | hw_03/scoring_api/src/api.py:169-172 | a field adds at most one message, none exactly when it passes |
| ScoringApi.AssignFields | hw_03/scoring_api/src/api.py:167-172 | at most one message per field |
| ScoringApi.AssignedStored | hw_03/scoring_api/src/api.py:57-59 | a value is stored exactly when its field accepts it, and as the body gave it |
| ScoringApi.AssignErrorsAppend | hw_03/scoring_api/src/api.py:168-172 | the messages of two runs of fields are concatenated |
| ScoringApi.AssignErrorsOrderFree | hw_03/scoring_api/src/api.py:141-146 | every set-iteration order gives the same messages, up to order |
| ScoringApi.AssignStoredOrderFree | hw_03/scoring_api/src/api.py:141-146 | every set-iteration order stores the same attributes |
| ScoringApi.NoErrorsAllPass | hw_03/scoring_api/src/api.py:168-172 | no messages means every field passed |
| ScoringApi.CleanFieldsStored | hw_03/scoring_api/src/api.py:57-59 | without errors every declared field holds the body's value |
| ScoringApi.Attr | hw_03/scoring_api/src/api.py:54-55 | reading an attribute never stored fails |
| ScoringApi.RequestCheck | hw_03/scoring_api/src/api.py:220-227 | only online scoring checks; it adds the pair message exactly when no pair is filled |
| ScoringApi.Construct | hw_03/scoring_api/src/api.py:163-174 | a false body gives "Request is empty." first |
| ScoringApi.Finish | hw_03/scoring_api/src/api.py:165-174 | the empty-body message leads the errors |
| ScoringApi.CheckOnlyWhenClean | hw_03/scoring_api/src/api.py:163-174 | with any message the request check is skipped: errors are the empty-body message then the fields' messages |
| ScoringApi.OnlineScorePairRule | hw_03/scoring_api/src/api.py:220-227 | a clean non-empty body fails exactly on the pair rule |
| ScoringApi.GenderZeroFillsPair | hw_03/scoring_api/src/api.py:224 | gender 0 with a birthday fills the pair |
| ScoringApi.ConstructOrderFree | hw_03/scoring_api/src/api.py:141-174 | construction is the same for every set-iteration order, up to message order |
| ScoringApi.HasAttrs | hw_03/scoring_api/src/api.py:213-218 | the declared names whose value is not `None` |
| ScoringApi.HasAttrsOfCleanRequest | hw_03/scoring_api/src/api.py:213-218 | for a clean request, the declared names the body gave a non-`None` value |
| ScoringApi.IsAdmin | hw_03/scoring_api/src/api.py:190-192 | admin exactly when login is the string "admin"; fails when login was never stored |
| ScoringApi.AuthNeedsAccountAndLogin | hw_03/scoring_api/src/api.py:234-235 | a non-admin with `None` account or login is refused |
| ScoringApi.AuthAdmin | hw_03/scoring_api/src/api.py:231-233 | the admin is accepted exactly on the digest of hour stamp + "42" |
| ScoringApi.AuthUser | hw_03/scoring_api/src/api.py:236-240 | a user is accepted exactly on the digest of account + login + "Otus" |
| ScoringApi.MethodHandler | hw_03/scoring_api/src/api.py:271-288 | any code besides 422 and 403 comes from a method function |
| ScoringApi.AuthFailedForbidden | hw_03/scoring_api/src/api.py:279-280 | a clean request whose authentication fails is answered "Not authorized", 403 |
| ScoringApi.RaiseIsWrong | hw_03/scoring_api/src/api.py:275-285 | a raise in construction, in authentication or in the method is answered "Wrong request", 422 |
| ScoringApi.DispatchAnswered | hw_03/scoring_api/src/api.py:281-283 | an authenticated clean request to a known method gets that method's answer |
| ScoringApi.EmptyBodyIsWrong | hw_03/scoring_api/src/api.py:273-274 | a false or missing body is a wrong request, 422 |
| ScoringApi.FieldErrorsAnswered | hw_03/scoring_api/src/api.py:277-278 | method-request errors are answered with their list and 422 |
| ScoringApi.ForbiddenMeansAuthFailed | hw_03/scoring_api/src/api.py:279-280 | 403 comes only from a clean request whose authentication failed |
| ScoringApi.UnknownMethodIsWrong | hw_03/scoring_api/src/api.py:281-285 | an unknown method is a wrong request, 422 |
| TestingApi.CheckField | hw_04/api_testing/src/api.py:95-102 | "presented" exactly for a required `None`, "empty" exactly for a non-nullable false value, value messages only for true values, at most two messages |
| TestingApi.MissingRequiredField | hw_04/api_testing/src/api.py:96-99 | a required non-nullable `None` gets both messages, "presented" first |
| TestingApi.ZeroIsEmpty | hw_04/api_testing/src/api.py:98-99 | `0` is empty for a non-nullable field |
| TestingApi.VersionsAgree | hw_04/api_testing/src/api.py:95-102 | where the two notions of empty agree, both versions pass the same values, and the first message of this one is the other's message |
| TestingApi.CheckAllAppend | hw_04/api_testing/src/api.py:151-155 | the messages of two runs of fields are concatenated in order |
| TestingApi.CheckAllRaises | hw_04/api_testing/src/api.py:151-155 | the request check raises exactly when some field raises |
| TestingApi.FieldListIncluded | hw_04/api_testing/src/api.py:151-155 | each field's list is a contiguous run of the request's list, between the earlier and later fields' lists |
| TestingApi.JoinContains | hw_04/api_testing/src/api.py:352 | each message occurs whole in the joined text |
| TestingApi.JoinLength | hw_04/api_testing/src/api.py:352 | the joined text is the messages plus one separator between neighbours |
| TestingApi.Validate | hw_04/api_testing/src/api.py:349-352 | raises exactly when there are messages |
| TestingApi.ValidateMentionsEach | hw_04/api_testing/src/api.py:349-352 | the raised text contains every message |
| TestingApi.InitialValues | hw_04/api_testing/src/api.py:59-63 | every field starts as `None` |
| TestingApi.Construct | hw_04/api_testing/src/api.py:144-146 | construction succeeds exactly for a dict whose keys all name fields |
| TestingApi.ValuesPersist | hw_04/api_testing/src/api.py:144-146 | a field the body does not mention keeps the previous request's value |
| TestingApi.IsAdminAgrees | hw_04/api_testing/src/api.py:280-282 | admin exactly when login is the string "admin", as in the other version |
| TestingApi.MethodHandler | hw_04/api_testing/src/api.py:324-346 | a 422 message reply needs a body that was constructed |
| TestingApi.ValidationErrorsAnswered | hw_04/api_testing/src/api.py:329-339 | validation messages are answered joined by spaces, with 422 |
| TestingApi.ValueErrorAnswered | hw_04/api_testing/src/api.py:337-339 | a later `ValueError` is answered with its text and 422 |
| TestingApi.UnknownKeyEscapes | hw_04/api_testing/src/api.py:328 | a body key naming no field is an uncaught exception |

## Left out

- Reading directories and files, `gzip`, encodings, writing the report, the
  HTML template and `json.dumps`: the directory listing, file contents and
  existing reports are parameters, and report records stop at the field
  list.
- `os.walk` descends into subdirectories; the model scans one flat list of
  names.
- The log-line regular expression is an uninterpreted matcher; `float()` is
  an uninterpreted parser; times are `real`, so float rounding, `nan` and
  `inf` are not modelled.
- Logging, `optparse`, `update_logger_config` and the HTTP server.
- `sha512`, `datetime.now()` and `relativedelta(years=70)` are parameters
  (`digest`, `hour`, `Boundary`).
- The methods' scoring functions (`online_score_handler`,
  `clients_interests_handler` and the `scoring` module) are abstract:
  `handler` in `ScoringApi.MethodHandler` and `rest` (authentication and
  dispatch) in `TestingApi.MethodHandler`.
- The text of the "Wrong request" reply, which prints the request's `repr`.
- `hw_04`'s `check_auth`, dispatch, `has_attrs`, `count_ids` and pair rule:
  its `__getattr__` returns field objects, so the pair rule always holds and
  `has_attrs`/`count_ids` fail; the `hw_03` versions are modelled.
- `hw_04`'s state after a failed construction: keys before the unknown one
  have already been assigned.
- Digits are ASCII only: Python's `\d` and `str.isdigit` also accept other
  Unicode digits. `Text.Upper` maps ASCII letters only.
- LogLocator.ReportName: years below 1000 are written zero-padded to four
  digits; glibc's `%Y` writes them without padding, so for such dates the
  report name differs from the model's.
- PokerBest.BestHand: hands with fewer than five cards are excluded; the
  source raises `IndexError` on them.
- PokerBest.BestWildHand: requires at least as many candidate cards as
  jokers removed; with fewer the source raises `IndexError` on an empty list.
  The removal of jokers from the caller's list (a mutation) is not
  modelled. The candidate cards are taken in `product` order rather than
  the set's per-process order, which can change the order of the cards in
  each candidate hand, and so which hand the final `(category, cards)`
  comparison prefers within a category.
- Poker.HandRank: stated for five-card hands, the only ones the source ranks.
- UserConfig.FirstActualConfig: the error text of a missing file is not
  modelled, only that it raises.

## Findings

| source | as written | input that shows it | evidently intended | confidence | as-written member | corrected member |
|---|---|---|---|---|---|---|
| hw_01/poker/src/poker.py:95-104 | `two_pair` lists the pairs in `set` iteration order, and `best_hand` compares those tuples | AS AH 9S 9H 6S 6H 2C: CPython iterates `{14, 9, 6}` as 9, 14, 6, so A-A-9-9-6 gets (2, 9, 14, …) and A-A-9-6-6 gets (2, 14, 6, …), and the weaker hand wins | the higher pair first, so a higher top pair (then a higher second pair) wins | medium, not executed | PokerPairOrder.SetOrderMisranks | PokerPairOrder.HighFirstRanksPairs |

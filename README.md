# Browser memory benchmark lab, modelled in Dafny

The benchmark launches Chromium and Firefox in turn, one browser server at a
time. It opens 1, 5, 10 and 20 tabs, rotating over four URLs, and samples the
resident memory of the server's whole process tree before and after opening
them. It writes one CSV line per trial. `cleanupAndExit` closes the browser
if set, then the server if set; a browser close that throws skips the server.

This project models that core:

- `JsText` (`js_text.dfy`): the JavaScript string built-ins the program
  relies on, over `seq<char>` (`trim`, `split` and `join` with a
  one-character separator, decimal digit strings as `Number`/`parseInt` read
  them and as number-to-string conversion writes them).
- `ProcessTree` (`process_tree.dfy`): the children-file tokenizer and
  `getProcessTree`, the depth-first walk over an explicit stack with a
  visited set. It is a `method` with a `while` loop, proved against the
  recursive specification `Walk`.
- `MemorySampler` (`memory_sampler.dfy`): the `^VmRSS:\s+(\d+)` multiline
  match and `sumRssKb`, a `for` loop proved against `RssTotal`.
- `Trial` (`trial.dfy`): one `measure` call as a specification. Whatever the
  driver and procfs answer during the trial is a `TrialScript`: which calls
  throw, the server's pid, and the two procfs snapshots. Given a script, the
  trial's driver calls and samples are `TrialEvents`, and its return value
  or exception is `TrialOutcomeOf`. The `try` block (`TryBlock`, with the tab
  loop `OpenTabs`) is a method proved against them. This module also holds
  `toFixed(1)` rounding, done exactly in tenths.
- `Report` (`report.dfy`): the CSV text, and how JavaScript prints each figure.
- `Lab` (`lab.dfy`): the module-level state as the class `Benchmark`. Its fields are
  `activeBrowser` and `activeBrowserServer` (`null` is `None`) and a log of
  driver calls. Its methods are `measure` (in four single-phase methods),
  the main loop `Run`, and `cleanupAndExit`.

Three behaviours of the code shape the model:

- The main loop has no `catch`. The first trial that throws ends the whole
  program with that exception (`Lab.MainAborted`), so the remaining
  configurations never run; the program finishes only when every trial
  completes (`Lab.MainFinishes`).
- `launchServer` and `connect` run before the `try`. When either throws, the
  `finally` does not run and nothing is closed (`Trial.NoTeardownBeforeTry`).
  After a failed `connect`, the launched server stays referenced
  (`Lab.ConnectFailureLeavesServer`, `Lab.RefsAfterTrial`).
- A throw in `newPage` or `goto` aborts the trial, and the pages opened so far
  are dropped.

Time and the outside world are parameters. Every driver answer is a field of
`TrialScript`, and `Run` takes one script per trial (`scripts: nat -> TrialScript`).
What `/proc` holds at a sample is a `ProcSnapshot`. A file whose read throws
is a pid absent from the snapshot's map.

## Model

| member | source | states |
|---|---|---|
| JsText.DecimalValue | bench-browser-mem-v2.js:71 | the value of a digit string, as `parseInt(_, 10)` reads it here and `Number` reads a pid at line 57; no contract of its own, `DecimalRoundTrip` states its property |
| JsText.Decimal | bench-browser-mem-v2.js:146 | number-to-string of a natural number is a digit string with no leading zero: it starts with `0` only when it is `0` |
| JsText.DecimalRoundTrip | bench-browser-mem-v2.js:71 | `parseInt(_, 10)` of the decimal string of `n` is `n` |
| JsText.Trim | bench-browser-mem-v2.js:54 | `trim` yields a string with no leading or trailing whitespace, no longer than the input |
| JsText.TrimSlice | bench-browser-mem-v2.js:54 | `trim` yields the slice of the input that starts after the leading whitespace; everything before and after the slice is whitespace |
| JsText.TrimStart | bench-browser-mem-v2.js:54 | cuts off exactly the leading whitespace: a suffix, all removed characters whitespace, the first kept one not |
| JsText.TrimEnd | bench-browser-mem-v2.js:54 | cuts off exactly the trailing whitespace: a prefix, all removed characters whitespace, the last kept one not |
| JsText.Split | bench-browser-mem-v2.js:55 | `split` yields at least one piece, and no piece contains the separator |
| JsText.SplitJoin | bench-browser-mem-v2.js:55 | splitting a join of separator-free pieces gives back the pieces |
| JsText.JoinSplit | bench-browser-mem-v2.js:148 | joining the pieces of a split gives back the string |
| JsText.JoinExcludes | bench-browser-mem-v2.js:148 | a character found in no piece, and not the separator, is not in the join |
| JsText.Join | bench-browser-mem-v2.js:148 | `join` with a one-character separator; no contract of its own, `JoinSplit`, `SplitJoin` and `JoinExcludes` state its properties |
| ProcessTree.ChildPids | bench-browser-mem-v2.js:52-57 | the tokenizer `trim().split(' ').filter(Boolean).map(Number)`; no contract of its own, `TokensAreDigits`, `ChildPidsRoundTrip` and `ChildPidsOfBlank` state its properties |
| ProcessTree.NonEmpty | bench-browser-mem-v2.js:56 | `filter(Boolean)` keeps only non-empty pieces of the input, and keeps all of them when none is empty |
| ProcessTree.NonEmptyAppend | bench-browser-mem-v2.js:56 | `filter` over a concatenation is the concatenation of the filtered parts, so the non-empty pieces are all kept, in order |
| ProcessTree.NonEmptySingle | bench-browser-mem-v2.js:56 | a single piece is kept exactly when it is not empty |
| ProcessTree.TokensAreDigits | bench-browser-mem-v2.js:52-57 | every token left after trim, split and filter of a children file is a digit string, so `Number` reads it as a pid |
| ProcessTree.ChildPidsRoundTrip | bench-browser-mem-v2.js:52-57 | parsing what procfs writes for a list of child pids gives back that list, in order |
| ProcessTree.ChildPidsOfBlank | bench-browser-mem-v2.js:52-57 | a children file holding only whitespace yields no pids |
| ProcessTree.ChildrenRelationRoundTrip | bench-browser-mem-v2.js:51-59 | the relation the walk follows, parsed from the children files procfs writes for a children map, is that map |
| ProcessTree.GetProcessTree | bench-browser-mem-v2.js:42-63 | the loop returns the walk `ProcessTree` of the parsed children relation from the root |
| ProcessTree.WalkKeepsInv | bench-browser-mem-v2.js:46-60 | from any state meeting the invariant, the finished walk meets it: no duplicates, root first, each later pid a child of an earlier one, closed under children |
| ProcessTree.WalkExtends | bench-browser-mem-v2.js:48-49 | the walk only appends to the visited list |
| ProcessTree.ProcessTreeStartsAtRoot | bench-browser-mem-v2.js:44-49 | the tree is non-empty and its first pid is the root |
| ProcessTree.ProcessTreeNoDuplicates | bench-browser-mem-v2.js:48-49 | no pid occurs twice in the tree |
| ProcessTree.ProcessTreeClosed | bench-browser-mem-v2.js:58 | every child listed for a pid of the tree is in the tree |
| ProcessTree.ProcessTreeDiscoveryOrder | bench-browser-mem-v2.js:46-58 | every pid after the first is a child of a pid that precedes it |
| ProcessTree.ProcessTreeReachable | bench-browser-mem-v2.js:42-63 | a pid is in the tree if and only if it is reachable from the root |
| ProcessTree.ProcessTreeOfLeaf | bench-browser-mem-v2.js:46-62 | a root without children gives the tree `[root]` |
| ProcessTree.ProcessTreeOfChildlessRoot | bench-browser-mem-v2.js:51-59 | a root whose children file fails to read or is blank gives `[root]` |
| MemorySampler.SpanWhitespace | bench-browser-mem-v2.js:70 | the greedy `\s*` run from a position: all whitespace, ending at a non-whitespace character or the end |
| MemorySampler.SpanDigits | bench-browser-mem-v2.js:70 | the greedy `\d*` run from a position: all digits, ending at a non-digit or the end |
| MemorySampler.LineFigure | bench-browser-mem-v2.js:70-71 | the regex `VmRSS:\s+(\d+)` anchored at the start of a text; it has no contract of its own, and `LineFigureRoundTrip` states what it reads |
| MemorySampler.MatchAt | bench-browser-mem-v2.js:70 | the regex with the multiline flag tried at one position: only at a line start; no contract of its own, `NoMatchInPrefix` and `LeftmostMatch` state its use |
| MemorySampler.FirstMatch | bench-browser-mem-v2.js:70 | the leftmost position where the regex matches, or none when it matches nowhere |
| MemorySampler.VmRssKb | bench-browser-mem-v2.js:70-71 | there is a figure if and only if the regex matches somewhere; the figure is that of the leftmost match |
| MemorySampler.NoMatchInPrefix | bench-browser-mem-v2.js:70 | no match starts in lines none of which starts with `VmRSS:`, whatever follows them |
| MemorySampler.LeftmostMatch | bench-browser-mem-v2.js:70-71 | the figure read is that of the first position where the regex matches |
| MemorySampler.LineFigureRoundTrip | bench-browser-mem-v2.js:70-71 | a `VmRSS:` line as procfs writes it (tag, padding, figure, then a non-digit) matches with its figure |
| MemorySampler.VmRssLineRoundTrip | bench-browser-mem-v2.js:69-71 | a status text whose `VmRSS:` line follows other lines, as in procfs, reads back as the figure of that line |
| MemorySampler.VmRssWithoutTag | bench-browser-mem-v2.js:70-71 | a status text with no line starting `VmRSS:` has no figure |
| MemorySampler.RssOf | bench-browser-mem-v2.js:68-72 | one pid's figure: the match of its status file, or 0 when the read throws or nothing matches; no contract of its own, `RssTotalUnreadable`, `RssTotalBound` and `VmRssKb` state its properties |
| MemorySampler.SumRssKb | bench-browser-mem-v2.js:65-75 | the loop returns `RssTotal`, the sum of each pid's figure, where an unreadable or unmatched status counts 0 |
| MemorySampler.RssTotalAppend | bench-browser-mem-v2.js:65-75 | the sum over a concatenation is the sum of the two sums |
| MemorySampler.RssTotalBound | bench-browser-mem-v2.js:67-71 | each pid's figure is at most the total |
| MemorySampler.RssTotalUnreadable | bench-browser-mem-v2.js:68-72 | pids none of whose status files can be read sum to 0 |
| MemorySampler.RssTotalPermutation | bench-browser-mem-v2.js:65-75 | the sum does not depend on the order of the pids |
| Trial.TabUrl | bench-browser-mem-v2.js:99 | `URLS[i % URLS.length]`; no contract of its own, `TabUrlRotation` states its property |
| Trial.TabUrlRotation | bench-browser-mem-v2.js:99 | tab `i` and tab `i + 4` get the same URL; the first four tabs get the four URLs in list order |
| Trial.RoundTenths | bench-browser-mem-v2.js:115-117 | `toFixed(1)` in tenths: within half a tenth of the exact value, a tie going away from zero |
| Trial.MbTenths | bench-browser-mem-v2.js:115-116 | `+(kb / 1024).toFixed(1)` in tenths: non-negative, within half a tenth of `kb / 1024` |
| Trial.MbTenthsMonotone | bench-browser-mem-v2.js:115-116 | a larger sample never gives a smaller figure |
| Trial.PerTabTenths | bench-browser-mem-v2.js:117 | the per-tab figure in tenths: within half a tenth of `(total - baseline) / (1024 * tabs)`, with the sign of the difference |
| Trial.MakeResult | bench-browser-mem-v2.js:112-118 | the record holds the browser and the tab count; its figures keep the order of the samples: a total no smaller than the baseline gives a total figure no smaller and a per-tab figure not negative, and the other way round |
| Trial.TabEventsWithoutFault | bench-browser-mem-v2.js:96-105 | with no throw, each tab in order is opened and then navigated to its rotated URL |
| Trial.TabFaultIsFirst | bench-browser-mem-v2.js:96-105 | a failed tab loop ends with the error of the first tab whose `newPage` or `goto` throws |
| Trial.TabFaultNone | bench-browser-mem-v2.js:96-105 | the tab loop ends without error if and only if no tab's step throws |
| Trial.OpenTabs | bench-browser-mem-v2.js:94-105 | the loop makes the calls `TabEvents` and ends with the error `TabFault`; kept page `i` is tab `i` at its rotated URL; all tabs are kept on success, otherwise the pages before the failing tab |
| Trial.SampleRssKb | bench-browser-mem-v2.js:91 | sampling walks the tree from the root and sums its figures: `SampleKb` |
| Trial.TryBlock | bench-browser-mem-v2.js:88-118 | the `try` block's calls are `TryEvents` and its value or exception is `TryOutcome` |
| Trial.TeardownRunsOnce | bench-browser-mem-v2.js:119-124 | after launch and connect, the trial ends with its `finally`: one browser close, then one server close unless the browser close threw, and no close earlier |
| Trial.NoTeardownBeforeTry | bench-browser-mem-v2.js:81-88 | when `launchServer` or `connect` throws, no close is called |
| Trial.BaselineFirst | bench-browser-mem-v2.js:85-93 | once connected, the baseline is sampled before the context and every tab |
| Trial.NavigationsFollowRotation | bench-browser-mem-v2.js:96-102 | every navigation of a trial is for a tab below the tab count, to that tab's rotated URL |
| Trial.CompletesIffNothingThrows | bench-browser-mem-v2.js:78-125 | a trial returns a result if and only if no driver call throws; the result holds the browser, the tab count and the rounded samples |
| Report.UnsignedTenths | bench-browser-mem-v2.js:146 | a non-negative figure prints as its whole part without leading zeros (a `0` first only when the whole part is 0), then `.` and the tenths digit exactly when that digit is not 0 |
| Report.FormatTenths | bench-browser-mem-v2.js:146 | a figure prints with only `-`, `.` and digits; it starts with `-` exactly when it is negative; its whole part, after any `-`, has no leading zero (a `0` first only when the whole part is 0); it holds a `.` exactly when its tenths digit is not 0 |
| Report.UnsignedTenthsRoundTrip | bench-browser-mem-v2.js:146 | a printed non-negative figure reads back as itself |
| Report.TenthsRoundTrip | bench-browser-mem-v2.js:146 | every printed figure, negative ones included, reads back as itself |
| Report.ParseSigned | bench-browser-mem-v2.js:146 | a leading `-` on a printed figure negates the figure read back |
| Report.Fields | bench-browser-mem-v2.js:146 | the five fields of a line; no contract of its own, `FieldsExclude` and `RowFields` state its properties |
| Report.Row | bench-browser-mem-v2.js:146 | one CSV line, the fields joined with `,`; no contract of its own, `RowFields` and `RowIsOneLine` state its properties |
| Report.FieldsExclude | bench-browser-mem-v2.js:146 | no field of a line contains `,` or a newline |
| Report.RowFields | bench-browser-mem-v2.js:146 | splitting a line on `,` gives its five fields: browser, tabs, baseline, total and per-tab figures |
| Report.RowIsOneLine | bench-browser-mem-v2.js:146 | a line contains no newline |
| Report.RowsAreLines | bench-browser-mem-v2.js:141-149 | no line written for a result contains a newline |
| Report.CsvText | bench-browser-mem-v2.js:141-149 | the CSV text, the header and the rows joined with `\n`; no contract of its own, `CsvLines` states its property |
| Report.CsvLines | bench-browser-mem-v2.js:141-149 | splitting the CSV on newlines gives the header, then one line per result, in order |
| Report.ExampleResult | bench-browser-mem-v2.js:112-118 | a 1-tab trial sampling 100000 KB and then 150000 KB gives 97.7, 146.5 and 48.8 MB |
| Report.ExampleFigures | bench-browser-mem-v2.js:146 | 97.7 prints as `97.7`, 100.0 as `100` and -2.3 as `-2.3` |
| Trial.BrowserName | bench-browser-mem-v2.js:132-133 | the `browserName` argument, `chromium` or `firefox`; no contract of its own, `FieldsExclude` and `RowFields` state what it contributes to a line |
| Lab.ScheduleFollowsTabsSet | bench-browser-mem-v2.js:131-134 | the eight trials take the tab counts of `TABS_SET` in turn, Chromium and then Firefox for each |
| Lab.ScheduleTabsPositive | bench-browser-mem-v2.js:18 | every scheduled tab count is positive |
| Lab.RunAdvance | bench-browser-mem-v2.js:131-134 | a completed trial takes the main loop one step further, its result appended |
| Lab.RunStop | bench-browser-mem-v2.js:131-134 | a trial that throws ends the main loop with its exception |
| Lab.OutcomesFollowSchedule | bench-browser-mem-v2.js:131-133 | each completed trial reports the browser and tab count it was run with |
| Lab.RunFromFinished | bench-browser-mem-v2.js:131-149 | a run that finishes has one result per trial, in schedule order, and the CSV of them |
| Lab.RunFromResults | bench-browser-mem-v2.js:131-134 | the results of a finished run are the records the trials returned, in order |
| Lab.RunFromFinishes | bench-browser-mem-v2.js:131-134 | the main loop runs to the end exactly when every remaining trial completes |
| Lab.MainFinishedShape | bench-browser-mem-v2.js:128-153 | a finished run has 8 results (Chromium then Firefox for 1, 5, 10 and 20 tabs), exit code 0, and a CSV of the header and one line per result |
| Lab.MainFinishedResults | bench-browser-mem-v2.js:128-134 | result `k` of a finished run is the record trial `k` returned |
| Lab.MainFinishes | bench-browser-mem-v2.js:128-134 | the main program finishes exactly when every trial of the schedule completes |
| Lab.RunFromAborted | bench-browser-mem-v2.js:131-134 | an aborted run stops at the first trial that throws, after the results of the trials before it |
| Lab.MainAborted | bench-browser-mem-v2.js:128-134 | the program aborts with the exception of the first trial that throws, after the results of those before it |
| Lab.RefsAfterTrial | bench-browser-mem-v2.js:81-124 | after a connected trial, both references are `null` if and only if both closes succeed, and never just one; after a failed `connect` the server stays referenced |
| Lab.CleanupEvents | bench-browser-mem-v2.js:29-36 | the calls `cleanupAndExit` makes; no contract of its own, `CleanupClosesWhatIsSet` states its properties |
| Lab.CleanupClosesWhatIsSet | bench-browser-mem-v2.js:29-36 | cleanup closes the browser if and only if it is set, and the server if and only if it is set and no browser close threw before it; each at most once, and nothing when neither is set |
| Lab.ConnectFailureLeavesServer | bench-browser-mem-v2.js:85-88 | after a failed `connect`, the trial's only calls are the launch and the connect, so the server is never closed |
| Lab.Benchmark.constructor | bench-browser-mem-v2.js:21-22 | both references start `null`, with no calls made |
| Lab.Benchmark.Measure | bench-browser-mem-v2.js:78-125 | `measure` makes the calls `TrialEvents`, returns or throws `TrialOutcomeOf`, and leaves the references as `ServerAfter` and `BrowserAfter` say |
| Lab.Benchmark.ConnectAndRun | bench-browser-mem-v2.js:86-124 | after a failed `connect`, the only call is the connect and the references are unchanged; otherwise `try` and `finally` follow, with the references cleared exactly when both closes succeed |
| Lab.Benchmark.TryFinally | bench-browser-mem-v2.js:88-124 | the `try` block's calls, then the `finally` block's; a throwing close replaces the `try` block's value or exception |
| Lab.Benchmark.Teardown | bench-browser-mem-v2.js:119-124 | the browser is closed, then the server unless that threw; the references become `null` only when both closes succeed |
| Lab.Benchmark.CleanupAndExit | bench-browser-mem-v2.js:29-36 | closes the browser if set, then the server if set, stopping at a browser close that throws; swallows the error, leaves the references, and returns the given exit code |
| Lab.Benchmark.RunTrial | bench-browser-mem-v2.js:132-133 | runs trial `k` of the schedule; the references are what `measure` leaves: `null` when it completes, otherwise `ServerAfter`/`BrowserAfter` of the trial (a server stays set after a failed `connect`) |
| Lab.Benchmark.Run | bench-browser-mem-v2.js:128-154 | the main program's outcome is `Main` and its calls are `MainEvents`; a finished run ends with both references `null`; an aborted run leaves the references as the throwing trial left them, starting from `null` after a completed trial |

## Left out

- The automation driver (Playwright) is not modelled. Each call's success or
  failure, and the server's pid, come from `TrialScript`. The `headless`,
  `waitUntil` and `timeout` options, the browser context and page objects
  are not modelled.
- Reading `/proc` is a snapshot parameter (`ProcSnapshot`), one per sample;
  the process tree changing during a walk is not modelled.
- `sleep`, the wall clock, `RUN_ID` (which depends on the date), and the
  asynchronous scheduling of `await` are not modelled; a trial is a sequence
  of calls.
- The JSON file, the console output and `console.table` are not modelled.
  The CSV is the text `CsvText`; writing it to a file is not modelled.
- The signal handlers for SIGINT and SIGTERM are not modelled: an interrupt
  between two awaits of a running trial is concurrency. `cleanupAndExit`
  is modelled on any state of the two references, which includes every
  state an interrupt can find.
- `process.exit` returns its code instead of ending the process. The exit
  status of an unhandled rejection is not modelled; an aborted run is the
  `Aborted` outcome.
- Children files (the type `ProcessTree.ChildrenFiles`) are restricted to text whose
  trimmed form holds only digits and spaces. `Number` of any other token
  (giving `NaN`) is not modelled.
- MemorySampler.SumRssKb: sums in the unbounded `nat`, and `DecimalValue`
  reads a figure exactly. In the source, `total` and the result of `parseInt`
  are doubles, exact only below 2^53 KB, far beyond any resident memory size.
- Trial.PerTabTenths: rounds the exact rational `(total - baseline) / (1024 * tabs)`.
  The source rounds two successive double divisions, which can
  differ from the exact value next to a tie.
- Report.FormatTenths: prints figures in plain decimal. JavaScript's
  exponent notation only applies to figures far beyond any memory size.
- Lab.Benchmark.Measure: requires `tabs > 0`. The only caller passes 1, 5, 10 or
  20; with 0 tabs the source divides by zero, which is not modelled.
- Lab.Benchmark.CleanupAndExit: whether the server's close throws is not an input,
  since the error is swallowed and no call follows it in either case.

# cypress-axe: the checkA11y pipeline in Dafny

This project models the control layer that cypress-axe puts around the axe-core
accessibility scanner. The layer works in these steps:

- It normalises the arguments of `checkA11y`: an empty or absent context, options or violation callback becomes `undefined`, and an empty results callback clears the violation callback.
- It splits the pipeline's own options (`includedImpacts`, `interval`, `retries`) from the options forwarded to `axe.run`.
- It scans, and scans again after a delay while the impact-filtered violations are non-empty and retries remain.
- It calls the results and violation callbacks.
- It logs one `a11y error!` entry per violation.
- It passes the result to an assertion gate. The gate fails on any remaining violation, unless report-only mode (`skipFailures`) is on.

The model also covers the helpers around the pipeline: `assertViolations`, `logViolations` and the three reporters. The two reporters named `consoleReporter` produce a keyed table. `cliReporter` produces an ordered list of rows. Beside the current revision (`src/index.ts`), the model covers two earlier revisions of the command: `src/index.js` and the original `index.js`.

Layout, one module per file:

- `js.dfy` (`Js`): JavaScript values, truthiness and `||`.
- `axe.dfy` (`Axe`): findings, nodes, scan results and scan targets.
- `events.dfy` (`Events`): what an observer sees of one call, written as a trace of events.
- `decimal.dfy` (`Decimal`): how `${n}` renders a count, with its inverse.
- `messages.dfy` (`Messages`): the summary templates, the node-count message and the selector string.
- `pipeline.dfy` (`Pipeline`): the stages shared by the revisions.
- `cypress_axe.dfy` (`CypressAxe`): `src/index.ts`.
- `cypress_axe_js.dfy` (`CypressAxeJs`): `src/index.js`.
- `cypress_axe_original.dfy` (`CypressAxeOriginal`): `index.js`.
- `assertions.dfy` (`Assertions`): `assertViolations` and `logViolations`.
- `reporting.dfy` (`Reporting`), `console_reporter.dfy` (`DashKeyedReporter`), `numbered_reporter.dfy` (`NumberedReporter`) and `cli_reporter.dfy` (`CliReporter`): the reporters.
- `scenarios.dfy` (`Scenarios`): two whole calls on concrete findings.

The scanner is a parameter. For `src/index.ts` it is a function `scan: nat -> ScanResult` that gives the raw result of attempt *i*. The earlier revisions scan once, so they take a single `ScanResult`. Every observable effect becomes an `Event` in the returned trace. The events are: a scan with its target and forwarded options, a wait with its delay value, a callback call, a `Cypress.log` entry, an assertion verdict, and the `TypeError` thrown by calling a truthy value that is not a function.

Three behaviours of the code are easy to misread. The model follows them as written:

- The retry controls use `||`, not `??`. So `interval: 0` waits 1000 ms, and `retries: 0`, `undefined` or `null` all give no retries (`ZeroIntervalWaitsDefault`, `RetryBudgetValues`).
- Line 82 of `src/index.ts` tests `resultsCallback` for emptiness but clears `violationCallback`. As written, a call without a results callback never calls the violation callback. `CheckA11yEmptyResultsCallbackSilences` states this.
- The reporters pluralise on `> 1`, so a count of 0 reads `0 accessibility violation was detected`. The assertion and the summary log pluralise on `=== 1`, so 0 reads `0 accessibility violations were detected`. `ReporterSummaryDiffersOnlyAtZero` states that the two wordings differ only at zero.

Report-only mode still runs the retry loop to the end. It changes only the gate.

A failed assertion (`HasFailure`) and a thrown `TypeError` (`Throws`) are two separate outcomes, and either one fails the test. Report-only mode prevents only the first. The report-only lemmas therefore state both: no assertion fails, and the call throws exactly when a callback that is reached is truthy but not a function.

## Model

| member | source | states |
|---|---|---|
| `Pipeline.IsEmptyObjectOrNull` | src/index.ts:49-54 | true exactly for `undefined`, `null` and a plain object with no own entries; false for every other value, including an empty array, `""`, `0` and an empty non-plain object |
| `Pipeline.NormaliseEmpty` | src/index.ts:76-81 | an empty argument becomes `undefined`; any other argument is kept unchanged |
| `Pipeline.ClearIfEmpty` | src/index.js:25-27 | the reassignment statement leaves its argument normalised as above |
| `Pipeline.ScanTarget` | src/index.ts:93 | the whole document exactly when the context is falsy, otherwise that context |
| `Pipeline.EmptyContextScansDocument` | src/index.js:25-28 | an empty or absent context scans the whole document; a truthy non-empty context is scanned as given |
| `Pipeline.ErrorLogShape` | src/index.ts:117-128 | a violation's log is named `a11y error!`, carries the violation, has the `id on N Node(s)` message, and highlights every node target in order, joined by `", "` |
| `Pipeline.ErrorLogs` | src/index.ts:117-129 | exactly one error log per violation, in the violations' order |
| `Pipeline.LogEach` | src/index.js:33-46 | the loop over the violations emits exactly those error logs |
| `Pipeline.GateEventsShape` | src/index.ts:134-148 | without skipFailures: one assertion that passes iff the set is empty, failing with the `=== 1` summary; with skipFailures: never a failure, and one `a11y violation summary` log exactly when the set is non-empty |
| `Pipeline.RunReport` | src/index.ts:113-148 | the violation stage: the violation callback if the set is non-empty, then the error logs, then the gate; a truthy non-function callback throws and ends the call |
| `Pipeline.RunCallbacks` | src/index.ts:108-148 | the stages after the final scan: the results callback with the raw result, then the violation stage |
| `Pipeline.ReportHasNoScans` | src/index.ts:113-148 | the violation stage never invokes the scanner |
| `Pipeline.AfterScanHasNoScans` | src/index.ts:108-149 | nothing after the final scan invokes the scanner again |
| `Pipeline.ErrorLogsNeverFail` | src/index.ts:117-129 | the error logs never hold an assertion failure |
| `Pipeline.ReportRunsToGate` | src/index.ts:113-148 | with a callable or absent violation callback, the stage runs in order: callback (when the set is non-empty), one log per violation, gate |
| `Pipeline.AfterScanRunsToGate` | src/index.ts:108-148 | with usable callbacks, the results callback comes first, then the violation stage in the order above |
| `Pipeline.ReportThrows` | src/index.ts:113-116 | the violation stage throws exactly when the set is non-empty and the violation callback is truthy but not a function |
| `Pipeline.AfterScanThrows` | src/index.ts:108-116 | the stages after the final scan throw exactly when the results callback is truthy but not a function, or the violation stage throws |
| `Pipeline.ReportOnlyReportNeverFails` | src/index.js:59-68 | in report-only mode no assertion of the violation stage fails; the stage throws exactly when the set is non-empty and the violation callback is truthy but not a function |
| `Pipeline.ReportOnlyNeverFails` | src/index.ts:142-148 | in report-only mode no assertion after the final scan fails, whatever was found; the stages throw exactly when the results callback, or for a non-empty set the violation callback, is truthy but not a function |
| `Pipeline.ReportFailsIffViolations` | src/index.js:50-58 | outside report-only mode, with a usable callback, the violation stage fails iff the set is non-empty |
| `Pipeline.GateFailsIffViolations` | src/index.ts:134-141 | outside report-only mode, with usable callbacks, the stages after the scan fail iff the filtered set is non-empty |
| `Pipeline.ReportCalls` | src/index.js:31-32 | the violation callback is called once with the set, exactly when the set is non-empty and the callback is a function; the results callback is never called in this stage |
| `Pipeline.AfterScanCalls` | src/index.ts:109-116 | a function results callback receives the raw result once; the violation callback is called as above unless a non-function results callback threw first |
| `Decimal.NatToString` | src/index.ts:139 | `${n}` is a non-empty run of digits with no leading zero (except `"0"` itself) |
| `Decimal.ParseNatToString` | src/index.ts:139 | the rendered count reads back as the same number |
| `Decimal.NatToStringInjective` | src/index.ts:139 | two counts render alike iff they are equal |
| `Messages.SummaryTextShape` | src/index.ts:139-140 | the summary template starts with the count and ends in `violation was detected` iff singular, `violations were detected` iff plural |
| `Messages.ViolationSummaryShape` | src/utils/assertViolations.ts:7-9 | the assertion summary starts with the count and is singular exactly for a count of 1 |
| `Messages.ReporterSummaryShape` | src/utils/console-reporter.ts:11-19 | the reporter summary starts with the count and is plural exactly for a count above 1 |
| `Messages.ReporterSummaryDiffersOnlyAtZero` | src/cli-reporter.ts:13-20 | the `> 1` and `=== 1` wordings agree for every count except 0 |
| `Messages.ViolationSummaryInjective` | src/utils/logViolations.ts:6-8 | the summary determines the count: equal summaries iff equal counts |
| `Messages.SingularSummaryExample` | src/index.ts:139-140 | one violation reads `1 accessibility violation was detected` |
| `Messages.PluralSummaryExample` | index.js:31-33 | two violations read `2 accessibility violations were detected` |
| `Messages.ZeroSummaryExample` | src/utils/assertViolations.ts:7-9 | zero reads `0 accessibility violations were detected` under the `=== 1` rule |
| `Messages.ZeroReporterSummaryExample` | src/utils/console-reporter.ts:16-18 | zero reads `0 accessibility violation was detected` under the `> 1` rule |
| `Messages.NodeCountMessageShape` | index.js:19-21 | the message starts with the rule id and then ` on `, the node count reads back after it, and it ends in ` Node` iff the count is 1 and in ` Nodes` otherwise |
| `Messages.FlattenAppend` | src/index.ts:118-119 | the targets of two groups of nodes are the targets of each, in order |
| `Messages.FlattenContainsTargets` | src/index.ts:118-119 | every target of every node is in the collected list |
| `Messages.ConcatTargetsFlattens` | src/index.ts:118-119 | the `reduce`/`concat` left fold collects the accumulator followed by all targets in node order |
| `Messages.JoinAppend` | src/index.ts:120 | joining two non-empty lists is joining each, separated once |
| `Messages.SelectorsFlatten` | src/index.ts:118-120 | the highlight selector is all node targets in order, joined by `", "` |
| `Messages.SelectorsAppend` | src/index.js:34-36 | the selector of two node groups is the selector of each, separated by `", "` |
| `Assertions.AssertViolations` | src/utils/assertViolations.ts:4-6 | the assertion passes iff the list is empty |
| `Assertions.AssertViolationsCount` | src/utils/assertViolations.ts:4-10 | a failure message reads back as the number of violations |
| `Assertions.AssertViolationsLengthOnly` | src/utils/assertViolations.ts:4-10 | two lists of the same length get the same verdict and message |
| `Assertions.AssertViolationsSingular` | src/utils/assertViolations.ts:7-9 | one violation fails with `1 accessibility violation was detected` |
| `Assertions.AssertViolationsPlural` | src/utils/assertViolations.ts:7-9 | any other failing count fails with `N accessibility violations were detected` |
| `Assertions.LogViolationsShape` | src/utils/logViolations.ts:3-10 | one entry named `a11y violation summary`, with no highlight and no details; its message starts with the count and is singular iff the count is 1 |
| `Assertions.LogViolationsMatchesAssertion` | src/utils/logViolations.ts:6-8 | for a non-empty list, the log message is the failure message of `assertViolations` |
| `Reporting.PositionKeyInjective` | src/utils/console-reporter.ts:23 | keys made of one prefix and a position (`${filename}-${idx}` here, `${filename} #${idx+1}` in consoleReporter.ts) are equal iff the positions are |
| `Reporting.PositionKeyNumber` | src/utils/consoleReporter.ts:17 | a key starts with its prefix, and the position, counted from 0 or from 1, reads back after it |
| `Reporting.PositionKeyCount` | src/utils/console-reporter.ts:21-29 | n positions give n distinct keys, so no record of a reporter's table overwrites another |
| `DashKeyedReporter.ConsoleReporter` | src/utils/console-reporter.ts:9-32 | the `> 1` summary, and one record per violation under its own `${filename}-${idx}` key, n records in all: impact, description, node count, and the label iff it is truthy |
| `NumberedReporter.SummaryShape` | src/utils/consoleReporter.ts:8-13 | the summary starts with the count, is plural exactly above 1, and ends with a period |
| `NumberedReporter.ConsoleReporter` | src/utils/consoleReporter.ts:3-27 | the summary with a period, and one record per violation under its `${filename} #${idx+1}` key, n records in all: impact, description, node count, and the label iff it is truthy |
| `CliReporter.Rows` | src/cli-reporter.ts:22-30 | one row per violation, same length and order, each row built from its own violation |
| `CliReporter.CliReportShape` | src/cli-reporter.ts:9-34 | the summary's count and `> 1` plural; every row carries the file name, its violation's impact and description, the node count, and the label iff it is truthy |
| `CliReporter.RowsAppend` | src/cli-reporter.ts:22-30 | the rows of a concatenation are the rows of each part, in order |
| `CypressAxe.KeepListedSelects` | src/index.ts:63 | the filter result is an order-preserving subsequence of the violations; every kept finding has a truthy, listed impact; each listed finding is kept as often as it occurs, each unlisted one never |
| `CypressAxe.SummarizeResultsSelects` | src/index.ts:56-65 | the identity when `includedImpacts` is absent, not an array, or empty; otherwise exactly the listed findings, in order |
| `CypressAxe.KeepListedIdempotent` | src/index.ts:63 | filtering a filtered list changes nothing |
| `CypressAxe.SummarizeResultsIdempotent` | src/index.ts:56-65 | `summarizeResults` applied twice equals applying it once |
| `CypressAxe.SummarizeResultsNarrows` | src/index.ts:60-64 | the result is never longer than the input and holds only findings the scanner reported |
| `CypressAxe.KeepListedAppend` | src/index.ts:63 | filtering a concatenation filters each part |
| `CypressAxe.SummarizeResultsAppend` | src/index.ts:56-65 | `summarizeResults` distributes over concatenation |
| `CypressAxe.SplitFields` | src/index.ts:88-89 | the three controls are read from the options, or from `{}` when they are falsy; none of the three keys is forwarded; every other key is forwarded unchanged, and nothing else is |
| `CypressAxe.ForwardedOptions` | src/index.ts:79-89 | the scanner receives the options' own entries minus the pipeline's keys; empty or absent options forward `{}` |
| `CypressAxe.RetryDelay` | src/index.ts:99 | the delay is `interval` when it is truthy, otherwise 1000 |
| `CypressAxe.RetryBudgetValues` | src/index.ts:90-97 | `retries` of 0, `undefined` or `null` allows no re-scan, `true` one, and a number n allows n re-scans when positive and none otherwise |
| `CypressAxe.ZeroIntervalWaitsDefault` | src/index.ts:99 | an interval of 0 or `undefined` waits 1000 |
| `CypressAxe.AttemptsFrom` | src/index.ts:91-105 | from attempt i with r retries left, the loop ends after attempt i and at most r more |
| `CypressAxe.Attempts` | src/index.ts:90-106 | one call scans at least once and at most `max(retries, 0) + 1` times |
| `CypressAxe.AttemptsFromStops` | src/index.ts:91-105 | every attempt before the last had a non-empty filtered set; the last had an empty one, or the retries ran out |
| `CypressAxe.AttemptsCharacterised` | src/index.ts:90-106 | the scan count is exactly the n for which all earlier scans were dirty and scan n was clean or the budget was spent |
| `CypressAxe.StubAttempts` | src/index.ts:90-106 | if the first k filtered sets are non-empty and the rest are empty: k + 1 scans when k ≤ r, else r + 1; the final set is empty iff k ≤ r |
| `CypressAxe.RetryTrace` | src/index.ts:92-100 | n attempts leave 2n − 1 events |
| `CypressAxe.RetryTraceScans` | src/index.ts:91-105 | n attempts invoke the scanner n times |
| `CypressAxe.RetryTraceShape` | src/index.ts:96-103 | scans and waits alternate; every wait uses the same delay; a scan comes last, so no wait follows the final scan |
| `CypressAxe.AttemptsFromStep` | src/index.ts:96-100 | unfolding of `AttemptsFrom`: a dirty scan with retries left hands over to the next attempt |
| `CypressAxe.AttemptsFromDone` | src/index.ts:101-103 | unfolding of `AttemptsFrom`: a clean scan, or one with no retries left, is the last |
| `CypressAxe.LogRetry` | src/index.ts:97-100 | a retry appends a wait and then the next scan |
| `CypressAxe.RunAxeCheck` | src/index.ts:90-106 | the loop returns the raw result of the last attempt and its filtered violations, after exactly `Attempts` scans separated by waits of the interval, or 1000 when it is falsy |
| `CypressAxe.EffectiveViolationCallback` | src/index.ts:82-87 | the violation callback is cleared when either callback is empty, and kept otherwise |
| `CypressAxe.ClearViolationCallback` | src/index.ts:82-87 | the two reassignment statements produce exactly that callback |
| `CypressAxe.Check` | src/index.ts:88-149 | the normalised call: the retry loop's trace, then the stages after the final scan |
| `CypressAxe.CheckA11y` | src/index.ts:67-150 | the whole command yields the trace of the normalised call |
| `CypressAxe.RetryTraceOnlyScansAndWaits` | src/index.ts:91-105 | the retry phase holds only scans and waits |
| `CypressAxe.PhasesScans` | src/index.ts:91-106 | the retry phase followed by scan-free events invokes the scanner n times |
| `CypressAxe.PhasesFailure` | src/index.ts:106-149 | a failure can only come after the final scan |
| `CypressAxe.PhasesCallbacks` | src/index.ts:106-116 | callbacks can only be called after the final scan |
| `CypressAxe.PhasesThrows` | src/index.ts:90-106 | the retry phase never throws: the call throws exactly when the stages after it do |
| `CypressAxe.CheckedSplits` | src/index.ts:106-108 | unfolding of `Checked`: the call is its retry phase followed by the stages on the last attempt's raw and filtered results |
| `CypressAxe.CheckedScans` | src/index.ts:90-106 | the normalised call invokes the scanner exactly `Attempts` times |
| `CypressAxe.CheckedFails` | src/index.ts:134-141 | outside report-only mode, with usable callbacks, the call fails iff the last filtered set is non-empty |
| `CypressAxe.CheckedReportOnly` | src/index.ts:142-148 | in report-only mode no assertion of the normalised call fails; it throws exactly when the results callback, or for a non-empty final filtered set the violation callback, is truthy but not a function |
| `CypressAxe.CheckedResultsCalls` | src/index.ts:109-111 | a function results callback receives the final raw result, once |
| `CypressAxe.CheckedViolationCalls` | src/index.ts:113-116 | the violation callback receives the final filtered set once, exactly when it is non-empty and callable |
| `CypressAxe.CheckA11ySingleScan` | src/index.ts:90-106 | a call that stops after one scan is that scan with the forwarded options, then the stages on the first result |
| `CypressAxe.CheckA11yScans` | src/index.ts:90-106 | one command invokes the scanner exactly `Attempts` times |
| `CypressAxe.CheckA11yStub` | src/index.ts:90-141 | outside report-only mode, with a callable or absent results callback and a callable or absent violation callback after the clearing at lines 82-87: with the first k filtered sets non-empty and the rest empty, k + 1 scans and success when k ≤ r, r + 1 scans and failure otherwise |
| `CypressAxe.CheckA11yReportOnly` | src/index.ts:135-148 | with skipFailures truthy, no assertion of the command fails; it throws exactly when the results callback is truthy but not a function, or when the final filtered set is non-empty and the violation callback survives lines 82-87 and is truthy but not a function |
| `CypressAxe.CheckA11yResultsCallback` | src/index.ts:108-111 | the results callback, when a function, receives the last raw result once |
| `CypressAxe.CheckA11yViolationCallback` | src/index.ts:82-116 | the violation callback is called once with the last filtered set, exactly when that set is non-empty, the callback is a function, and the results callback is neither empty nor a non-function |
| `CypressAxe.CheckA11yEmptyResultsCallbackSilences` | src/index.ts:82-84 | as written, an empty or absent results callback means the violation callback is never called |
| `CypressAxeJs.CheckA11y` | src/index.js:17-70 | the command yields one scan and then the violation stage on the raw violations |
| `CypressAxeJs.ScansOnce` | src/index.js:23-29 | exactly one scan, first: of the context unless it is empty or falsy, and with the options as given unless they are empty |
| `CypressAxeJs.ViolationCallbackOnce` | src/index.js:30-32 | the violation callback receives the full raw violation list once, exactly when it is non-empty and the callback is a function |
| `CypressAxeJs.RunsToGate` | src/index.js:30-69 | with a callable or absent violation callback (after `{}` and `null` are cleared): after the scan, the callback when called, one highlighted error log per violation in order, then the gate |
| `CypressAxeJs.FailsIffViolations` | src/index.js:50-68 | with a callable or absent violation callback (after `{}` and `null` are cleared): outside report-only mode the call fails iff there are violations; in report-only mode no assertion fails |
| `CypressAxeJs.CurrentOnPlainOptions` | src/index.ts:74-116 | the current revision, on plain options without pipeline keys and a function results callback, scans once and then runs the callback and the violation stage on the raw result |
| `CypressAxeJs.RevisionsAgree` | src/index.js:17-70 | in that case the current revision's trace is this revision's trace with the results callback inserted after the scan |
| `CypressAxeOriginal.CheckA11y` | index.js:8-36 | the command yields a whole-document scan, the error logs, and the assertion |
| `CypressAxeOriginal.Shape` | index.js:9-26 | a whole-document scan with no options, then exactly one log per violation in order, then the assertion; one scan in all |
| `CypressAxeOriginal.LogsNameNodes` | index.js:15-23 | each log is `a11y error!` with the `id on N Node(s)` message, the violation, and no highlight |
| `CypressAxeOriginal.FailsIffViolations` | index.js:27-35 | the call fails iff there are violations, with the singular message for one and the plural message for more |
| `CypressAxeOriginal.WithoutHighlightErrorLogs` | src/index.js:38-45 | dropping the highlight of the later revision's error logs gives the original's logs |
| `CypressAxeOriginal.RevisionsAgree` | index.js:8-36 | `src/index.js` with empty arguments and without report-only mode does what this revision does, except for the highlight |
| `Scenarios.SeriousFilter` | src/index.ts:63 | with `includedImpacts: ['serious']`, a serious and a minor finding filter down to the serious one |
| `Scenarios.SeriousScenario` | src/index.ts:67-150 | that call scans the whole document once with `{}` forwarded, logs the serious finding, and fails with `1 accessibility violation was detected` |
| `Scenarios.CleanScenario` | src/index.ts:67-150 | a clean first scan: one scan, the results callback if any, no violation callback or log, and a passing assertion |

## Left out

- `injectAxe` and `configureAxe` are left out. They read the engine's source file, evaluate it in the page, and delegate to `axe.configure`: file I/O and foreign calls.
- The scanner `axe.run` is a parameter giving the raw result of each attempt. A rejected scan ends the Cypress command chain; the model does not represent that path.
- `setTimeout` is left out. Only the delay value handed to it is recorded, as a `Wait` event, not real time.
- Cypress's command time-out (`defaultCommandTimeout`) is not modelled. A long retry chain can time out in Cypress, failing the test, where the model shows it running to the end.
- Cypress command queueing (`cy.window`, `cy.wrap`, `.each`, `.then`) is flattened into the event order it produces.
- The output sinks (`Cypress.log`, `Cypress.$`, `cy.task`, `console.table`) are modelled by their arguments only, as events or returned values.
- The reporters' tables are `map`s. The insertion order in which `console.table` prints the keys is not kept.
- `Cypress.Commands.add` registration and the `declare global` blocks are host-runner plumbing and are left out.
- `value.constructor === Object` is the `plain` flag of an object value.
- Functions with own enumerable properties are not modelled.
- A callback that is a function but throws is not modelled. Only the `TypeError` from calling a non-function is.
- `RetryBudget` covers numbers, booleans and falsy values. JavaScript's numeric coercion of other `retries` values (a numeric string, an array) under `> 0` and `--` is not modelled; those give no retries here.
- Numbers are integers. `NaN` and fractional `interval` or `retries` values are not modelled.
- `Split` reads own properties only from objects. Destructuring a truthy string or array passed as `options` would also forward its index properties; the model forwards `{}` for them.
- `src/types.ts`, `configureCypressAxe`, the reporter dispatcher and the `shouldFail` failure policy it declares are not part of this model. Their implementation is not among the modelled files.
- `cypress/e2e/test.cy.js` and `cypress.config.js` are left out. They are browser tests against live sites and runner configuration.

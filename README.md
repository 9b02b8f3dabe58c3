# Classifying MSF payload/encoder combos against Snort alerts

`interpret-results.py` reads the results of running Metasploit payload/encoder
*combos* past a Snort sensor. Each combo has a file named
`<payload>---<encoder>` (module paths with `/` written as `-`) that holds the
Snort alerts it raised. An execution transcript, cut into blocks at
`-----\n`, records how each combo ran. The script does the following:

- It derives each combo's payload and encoder from its file name.
- It finds the combo's block in the transcript.
- It decides whether the exploit failed. Inconsistent failure markers stop the whole run.
- Otherwise it extracts the Snort alerts and keeps the ones not on an ignore list.
- It files the combo as *failed*, *new alerts* or *no alerts*.
- It counts, for each new alert, how many combos raised it.
- It splits the executed combos by default encoder (`generic/none`) versus any other encoder.
- It prints shares of these counts.

This Dafny project models that pass. It is organised as follows:

- `wrappers.dfy`: `Option`, `Result` and the reasons a run stops (`Errors.Abort`).
- `text.dfy`: Python's `str.split`, `str.replace`, the `in` substring test, and lines.
- `identity.dfy`: the naming scheme. `Parse` models lines 92-94. `FileName` is its inverse on module paths (`NameThenParse`) and on names without `/` (`ParseThenName`). It is not an inverse in general: payload `a/` with encoder `b` is named `a----b`, which parses as (`a`, `/b`).
- `execution_log.dfy`: the transcript blocks and the search done by `get_msf_output`.
- `classifier.dfy`: the failure pattern, alert extraction with `re.findall` semantics, and the per-combo decision.
- `aggregator.dfy`: the classification loop as a method proved against the fold `Aggregate`, the partition and frequency properties, and the encoder counting loops.
- `report.dfy`: the percentage lines as (numerator, denominator) pairs. It has the division as written and a guarded version.

Some consequences of the code that the model makes explicit:

- **Names with two `---`.** A name with two non-overlapping `---` stops the run: the unpacking at line 92 needs exactly two parts (`Identity.TwoDelimitersFail`). The directory filter `.*---.*` at line 82 lets such names through.
- **Default-encoder test.** Line 146 tests whether `---generic-none` is a substring of the file name, not whether the encoder equals `generic/none` (`Identity.DefaultEncoderTestIsSubstring`).
- **Two alerts on one line.** The pattern at line 117 is greedy, so a line holding `[**A**] ... [**B**]` yields the whole line as one alert (`Classifier.WholeLineIsOneAlert`).
- **Block separator.** The transcript is cut at every `-----\n` (line 58), including one that ends a longer line.

## Model

| member | source | states |
|---|---|---|
| Text.Split | interpret-results.py:58 | `str.split`: the parts joined with the separator give the string back, and no part contains the separator |
| Text.SplitTwoOccurrences | interpret-results.py:92 | two non-overlapping occurrences of the separator give at least three parts |
| Text.Lines | interpret-results.py:109 | a text's lines joined with newlines give the text back, and no line holds a newline, so a pattern whose `.` excludes `\n` matches within one line |
| Text.Replace | interpret-results.py:93-94 | `str.replace` of one character: same length, and each position is replaced exactly where it held the old character |
| Text.ReplaceInverse | interpret-results.py:93-94 | replacing back undoes a replacement when the new character was absent |
| Identity.Parse | interpret-results.py:92-94 | a failure is a malformed-name stop; on success the payload and encoder are the text before and after the first `---`, each with `-` turned into `/`, so neither holds `-` and the lengths add up with the delimiter to the name |
| Identity.ParseSucceedsIff | interpret-results.py:92 | parsing succeeds iff the name holds `---` and the text after its first occurrence holds no other |
| Identity.TwoOccurrencesFail | interpret-results.py:92 | two non-overlapping `---` make the unpacking fail |
| Identity.TwoDelimitersFail | interpret-results.py:92 | every `a---b---c` fails to parse; the first `---` is not taken as the split point |
| Identity.ParseThenName | interpret-results.py:92-94 | for a name without `/` that parses, writing `/` back as `-` and joining with `---` gives the name back |
| Identity.FileNameSplits | interpret-results.py:92 | the name of a combo whose paths have no `-`, no `//` and no trailing `/` splits into exactly the two encoded paths |
| Identity.NameThenParse | interpret-results.py:92-94 | parsing the name of such a combo gives back its payload and encoder |
| Identity.DefaultEncoderNamePasses | interpret-results.py:146 | a name whose encoder parses to `generic/none` passes the default-encoder test |
| Identity.DefaultEncoderTestIsSubstring | interpret-results.py:146 | an encoder that only starts with `generic/none` also passes that test, although it is not `generic/none` |
| ExecutionLog.Blocks | interpret-results.py:58 | the blocks joined with `-----\n` give the transcript back, and no block holds the separator |
| ExecutionLog.FirstMention | interpret-results.py:96-98 | the index found mentions the combo and no block before it does; no index means no block from the start onward does |
| ExecutionLog.Lookup | interpret-results.py:91-99 | success returns the first block holding both `payload\n` and `encoder\n`; failure is the not-found stop, and then no block holds both |
| ExecutionLog.LookupIgnoresLaterBlocks | interpret-results.py:96-98 | blocks after the first match never change the lookup |
| Classifier.FailedOnLineIff | interpret-results.py:109 | searching the first `[-]` and then ` Exploit failed` after it succeeds iff `\[-\].* Exploit failed` matches the line |
| Classifier.IsFailedIff | interpret-results.py:109 | a block is failed iff the failure pattern matches one of its lines |
| Classifier.IsFailed | interpret-results.py:109-112 | a block is failed iff some `[-]` is followed, with no newline between, by ` Exploit failed`; a failed block contains `[-]`, so the marker check at line 112 only sees blocks that are not failed |
| Classifier.LastCloser | interpret-results.py:117 | finds the last `*]` before a bound, and none exists when it finds none |
| Classifier.FirstOpener | interpret-results.py:117 | finds the first `[` or `*` in a range, and none exists when it finds none |
| Classifier.AlertSpan | interpret-results.py:117 | the span found matches the alert pattern and contains every match on the line; no span means no match |
| Classifier.LineAlert | interpret-results.py:117 | the alert taken from a line is a substring shaped like an alert, is the leftmost-longest match, and is absent iff nothing matches |
| Classifier.WholeLineIsOneAlert | interpret-results.py:117 | a line from an opener to a final `*]` is one alert, whatever alerts stand inside it |
| Classifier.AlertsOfLines | interpret-results.py:117 | at most one alert per line; every line's alert is among the alerts, and every alert is the alert of some line |
| Classifier.Alerts | interpret-results.py:117 | `re.findall` over a combo's text: every line's alert is found and nothing else, at most one per line, each shaped like an alert and inside the text |
| Classifier.ClassifyCombo | interpret-results.py:91-129 | a malformed name stops the run; a name no block mentions stops it as not found; otherwise the outcome is the decision on the first block that mentions the combo |
| Classifier.NotIgnored | interpret-results.py:118-120 | an alert is kept iff it was extracted and is not on the ignore list |
| Classifier.Decide | interpret-results.py:109-129 | failed iff the pattern matches; the two stops and their kinds; new alerts iff some alert is not ignored, with exactly those alerts as a non-empty set |
| Aggregator.Collect | interpret-results.py:102-115 | a run of per-combo results completes iff every combo's result succeeds, and then holds one value per combo, each that combo's result |
| Aggregator.Classified | interpret-results.py:102-115 | the pass completes iff every combo can be classified, and then holds each combo's outcome in order |
| Aggregator.CollectStops | interpret-results.py:102-115 | a stopped run stops with the error of a combo whose predecessors all succeeded |
| Aggregator.CollectStopsAt | interpret-results.py:102-115 | when all combos before a failing one succeed, the run stops with that one's error |
| Aggregator.RunStopsAtFirstBadCombo | interpret-results.py:102-115 | the whole run stops with the first bad combo's error, whatever follows it |
| Aggregator.Record | interpret-results.py:110-129 | the combo is appended to the list of its outcome's kind and to no other, and the counter gains each of its distinct new alerts exactly once |
| Aggregator.Aggregate | interpret-results.py:102-129 | an alert's count is the number of combos that have it among their new alerts, once per combo |
| Aggregator.AggregateBuckets | interpret-results.py:102-129 | each of the three lists holds exactly the combos of its outcome, in processing order |
| Aggregator.BucketsPartition | interpret-results.py:102-129 | the three lists together hold every combo exactly once (as multisets) |
| Aggregator.BucketSizes | interpret-results.py:188 | the three list lengths sum to the number of combos |
| Aggregator.Carriers | interpret-results.py:126-127 | the number of new-alert combos that hold a given alert, at most the number of combos; `Aggregate` proves its counter equal to it, which is the count line 199 reports |
| Aggregator.FrequencyBounded | interpret-results.py:126-127 | no alert's count exceeds the number of new-alert combos |
| Aggregator.CountsAlwaysConsistent | interpret-results.py:188-191 | whenever the run completes, the closing consistency check holds, so its warning is never printed |
| Aggregator.NewAlertsOf | interpret-results.py:118-120 | the inner loop keeps exactly the non-ignored alerts, in order |
| Aggregator.ClassifyOne | interpret-results.py:103-129 | one iteration of the loop computes the combo's classification or its stop |
| Aggregator.AggregateStep | interpret-results.py:102-129 | one more iteration extends the lists and counter of the previous ones |
| Aggregator.ClassifyBatch | interpret-results.py:102-129 | the loop stops iff some combo stops the run, with the first such error; otherwise its lists and counter are the fold of the outcomes |
| Aggregator.UsesDefaultEncoder | interpret-results.py:146 | the substring test accepts every name without `/` whose encoder parses to `generic/none` |
| Aggregator.DefaultPlusOther | interpret-results.py:143-149 | every name is counted under exactly one encoder kind |
| Aggregator.CountsOfConcat | interpret-results.py:131 | counting the executed list counts the no-alerts and new-alerts lists |
| Aggregator.CountByEncoder | interpret-results.py:143-149 | the counting loop's two counters are the default and other counts and sum to the list's length |
| Aggregator.Breakdown | interpret-results.py:131-169 | default plus other equals the parent count for the executed, new-alerts and no-alerts groups, and the executed split is the sum of the other two |
| Aggregator.EncoderBreakdown | interpret-results.py:143-169 | the three counting loops compute the six counters |
| Report.Pairs | interpret-results.py:133-184 | the shares of each group add up to the group, and the failed share is a fraction of the total |
| Report.Divide | interpret-results.py:133 | an unguarded division crashes iff the divisor is zero |
| Report.RatesAsWritten | interpret-results.py:133-184 | the percentage lines get through iff there are combos and both encoder kinds executed, with exactly the pairs; otherwise they crash at line 133, 137, 160 or 180, the first zero divisor in print order |
| Report.AllFailedCrashes | interpret-results.py:137 | a run whose combos all failed crashes at line 137 |
| Report.OtherEncoderOnlyCrashes | interpret-results.py:160-161 | the run of the single combo `a---b` without alerts crashes at line 160 |
| Report.Guard | interpret-results.py:160-161 | a share is shown iff its denominator is positive |
| Report.Rates | interpret-results.py:133-184 | a share is omitted exactly when its group is empty, a share shown is its pair, and when the counts are consistent every share shown is a fraction of a non-empty group |
| Report.RatesAgreeWhereDefined | interpret-results.py:133-184 | wherever the script gets through, the guarded version shows the same shares |

## Left out

- Argument checks, file reading and the directory listing are not modelled (lines 36-88). The combo names and texts, the ignore list and the transcript are inputs. The names are taken as already filtered by `---` (line 82).
- The exit on an empty combo directory (line 86) is not modelled. `Report.RatesAsWritten` takes the total as a parameter instead.
- The ignore list's `rstrip('\n')` per line (line 50) is not modelled. The ignore list is given as a sequence of strings.
- The text of printed messages and of the stop messages (lines 99, 113, 115) is not modelled. A stop carries only its kind and the data it names.
- Percentages are not computed as floats and the 2-digit `round` is not modelled. Shares are numerator/denominator pairs.
- The ordering of `Counter.most_common` (line 199) is not modelled. The frequency count is the multiset `Tally.totalNewAlerts`.
- Texts are taken after Python's universal-newline translation: opening a file in text mode turns `\r\n` and `\r` into `\n`. The model does not perform that translation; the regular expressions are modelled on texts that hold `\n` only as line ends.

## Findings

| source | as written | input that shows it | evidently intended | confidence | as-written member | corrected member |
|---|---|---|---|---|---|---|
| interpret-results.py:137 | divides by the number of executed combos without checking it | a run in which every combo failed: ZeroDivisionError at line 137 | print the share only when some combo executed | high, not executed | Report.AllFailedCrashes | Report.Rates |
| interpret-results.py:160-161 | divides by the number of executed default-encoder combos without checking it (likewise lines 171-172, and lines 180-184 for other encoders) | the single combo `a---b` executed without alerts: ZeroDivisionError at line 160 | print the share only when its encoder group is non-empty | high, not executed | Report.OtherEncoderOnlyCrashes | Report.Rates |

# Observer agent: row scanner and fragility report

This project models the two routines of the LogicFlow observer agent
(`micro_pilot/observer_agent.py`):

- `scan_data` walks the data rows of an order file once. For every row it appends
  issue texts to a list, in this order:
  - a duplicate issue when the row's full value tuple was seen in an earlier row
    (`seen_rows` only ever grows);
  - one missing-data issue per critical column (`email`, `order_total`,
    `shipping_address`, in that order) that is present in the row and blank after
    `strip()`;
  - an invalid-format or negative-value issue for `order_total`.

  Each row is labelled `i + 2`: line 1 of the file is the header. A file that cannot
  be found gives the single critical-error issue.
- `generate_report` writes a banner, then either the HEALTHY line or the FRAGILE
  status. The FRAGILE status gives the anomaly count, a revenue risk of $50 per
  anomaly, a heading and one `[ALERT]` line per issue.

Both routines are imperative loops in the source, and they stay methods with loops here:

- `Scanner.ScanData`, `Scanner.ScanAllRows` and `Scanner.CheckCriticalColumns` carry the loops of `scan_data`.
- `Reporter.GenerateReport` and `Reporter.WriteAlerts` carry the loop of `generate_report`.

Each method is proved equal to a pure specification function. The scanner is specified by
`Scanner.Scan` and `Scanner.Messages`, the report by `Reporter.ReportLines` and
`Reporter.Render`. The properties the agent promises are lemmas about those functions:

- `ScanProperties`: row labels, the order of issues, when each kind of issue appears and
  how often.
- `ReportProperties`: what a reader recovers from the report — count, risk and findings —
  and that the written file splits back into exactly the report's lines.
- `Scenarios`: the demonstration run of the `__main__` block on its four-row sample file.

Files:

- `optional.dfy`: the `Option` datatype.
- `text.dfy`: `str()` of a non-negative integer and its inverse; Python's `str.strip()`
  and `str.isspace()`.
- `scanner.dfy`: the issue datatype, the specification of the scan and the methods of
  `scan_data`.
- `scan_properties.dfy`: lemmas about the scan.
- `reporter.dfy`: the report lines, their rendering as file text and the methods of
  `generate_report`.
- `report_properties.dfy`: lemmas about the report.
- `scenarios.dfy`: the demonstration run.

Modelling choices:

- A row is `seq<(column, value)>` in header order, as `csv.DictReader` yields it.
  `row[col]` and `col in row` are `Scanner.Lookup`, and `tuple(row.values())` is
  `Scanner.Values`.
- `float(raw)` followed by `val < 0` is a parameter
  `parse: string -> Parsed` with the outcomes `Invalid`, `NonNegative` and
  `Negative(shown)`. `shown` is the text Python prints for the parsed value.
- The file that may be missing is `DataFile = NotFound | Found(rows)`.
- The report file is modelled as the text written to it. The formatted timestamp is a
  parameter.
- Issue texts are built from an `Issue` datatype by `Scanner.Message`.
  `ScanProperties.MessageInjective` shows that distinct issues give distinct texts, so
  the texts carry exactly the information of the issues.

Duplicate detection compares whole rows, `order_id` included. Order ids rarely repeat,
so a re-entered order with a new id is not caught. This may be a latent defect, but the
intended rule is not documented, so the model keeps the literal rule
(`Scanner.Values`, `ScanProperties.DuplicateFlaggedOnce`).

The model follows the code on two points where a reader might expect otherwise:

- A file that cannot be opened for any reason other than being missing (a permission
  error, say) is not caught. `scan_data` catches only `FileNotFoundError` (line 54), and
  the model's `NotFound` is that case alone.
- Ragged rows are outside the model, because every column of a modelled row holds a
  string. What the code does with them is described under "Left out".

## Model

| member | source | states |
|---|---|---|
| Scanner.Detail | micro_pilot/observer_agent.py:37-52 | the text after `Row <n>` of a row's issue, as lines 37, 43, 50 and 52 write it; it begins with `: `. `ScanProperties.DetailInjective` shows that it tells the issues of one row apart |
| Scanner.Message | micro_pilot/observer_agent.py:37-55 | the text appended for an issue: `Row <n>` and the detail, or the critical-error text of line 55. That text is produced exactly for a missing file; `ScanProperties.MessageInjective` shows that distinct issues give distinct texts |
| Scanner.DuplicateIssues | micro_pilot/observer_agent.py:35-37 | the duplicate check of one row: a duplicate issue when the row's value tuple is among those already seen. `Scanner.CheckDuplicate` and `ScanProperties.DuplicateFlaggedOnce` state its contract |
| Scanner.Scan | micro_pilot/observer_agent.py:26-55 | the issues of `scan_data`: the critical error alone when the file is missing (the `except` of lines 54-55), otherwise the issues of every row in order. `ScanProperties.CriticalErrorOnlyWhenNotFound`, `ScanProperties.ScanInOrder` and `Scanner.ScanData` state its contract |
| Scanner.Lookup | micro_pilot/observer_agent.py:42 | `col in row` holds exactly when some pair of the row has that column name; `row[col]` is the value of such a pair |
| Scanner.MissingIssues | micro_pilot/observer_agent.py:41-43 | the critical-column checks report at most one issue per column checked, each a missing-data issue for this row |
| Scanner.MissingIssuesMembers | micro_pilot/observer_agent.py:41-43 | a column gets a missing-data issue exactly when it is one of the checked columns, present in the row and blank |
| Scanner.TotalIssues | micro_pilot/observer_agent.py:46-52 | the `order_total` check reports at most one issue. It reports none exactly when the column is absent or parses to a value not below zero. The invalid-format issue carries the raw text and appears exactly when parsing fails. The negative-value issue carries the parsed value and appears exactly when it is below zero |
| Scanner.RowIssues | micro_pilot/observer_agent.py:30-52 | every issue of the data row at 0-based index `i` is labelled row `i + 2`; a row yields at most five issues |
| Scanner.ScanRows | micro_pilot/observer_agent.py:30-52 | every issue of a scan of `n` rows belongs to a row labelled between 2 and `n + 1`, and none is the critical error |
| Scanner.SeenTuplesSnoc | micro_pilot/observer_agent.py:35-38 | after a row is processed, the seen tuples are those before it plus exactly that row's value tuple |
| Scanner.CheckDuplicate | micro_pilot/observer_agent.py:35-38 | the duplicate check returns the row's value tuple and reports a duplicate exactly when that tuple was already seen |
| Scanner.CheckCriticalColumns | micro_pilot/observer_agent.py:41-43 | the loop over the critical columns reports, in column order, each one that is present with a value `strip()` leaves empty |
| Scanner.CheckOrderTotal | micro_pilot/observer_agent.py:46-52 | the `order_total` check yields the texts of the issues `TotalIssues` specifies |
| Scanner.ScanRow | micro_pilot/observer_agent.py:32-52 | the body of the row loop yields the duplicate, missing-data and `order_total` texts of the row, in that order, and the tuple it adds to `seen_rows` |
| Scanner.ScanAllRows | micro_pilot/observer_agent.py:22-52 | the row loop yields the texts of all issues of all rows in order. Its invariant keeps `seen_rows` equal to the set of value tuples of the rows processed so far |
| Scanner.ScanData | micro_pilot/observer_agent.py:13-58 | `scan_data` returns the critical error alone when the file is missing, and otherwise the texts of the scan of its rows |
| ScanProperties.SeenIffRepeat | micro_pilot/observer_agent.py:35-36 | a row's tuple is in `seen_rows` exactly when some earlier row has the same value tuple |
| ScanProperties.SeenTuplesGrow | micro_pilot/observer_agent.py:38 | `seen_rows` is never pruned: every tuple seen after `i` rows is still seen after any later row |
| ScanProperties.DuplicateFlaggedOnce | micro_pilot/observer_agent.py:35-38 | a row is reported as a duplicate exactly once when an earlier row has the same value tuple, and never otherwise; the first occurrence is never flagged |
| ScanProperties.MissingReported | micro_pilot/observer_agent.py:41-43 | the scan holds a missing-data issue for column `c` at row `k + 2` exactly when `c` is critical and present but blank in row `k`; an absent column yields none |
| ScanProperties.InvalidFormatReported | micro_pilot/observer_agent.py:46-52 | the scan holds an invalid-format issue with text `raw` at row `k + 2` exactly when row `k` has `order_total` equal to `raw` and it does not parse |
| ScanProperties.NegativeValueReported | micro_pilot/observer_agent.py:46-50 | the scan holds a negative-value issue at row `k + 2` exactly when row `k` has an `order_total` that parses to a value below zero, shown as Python prints it |
| ScanProperties.ScanRowsAt | micro_pilot/observer_agent.py:30-32 | an issue labelled row `k + 2` occurs in the scan as often as in the checks of the row at index `k` |
| ScanProperties.MissingInColumnOrder | micro_pilot/observer_agent.py:41-43 | the missing-data issues of a row follow the order of the critical-column list |
| ScanProperties.RowIssuesInOrder | micro_pilot/observer_agent.py:34-52 | within a row the duplicate issue comes first, then the missing columns in list order, then `order_total`; all of them after earlier rows' issues and before later rows' |
| ScanProperties.ScanInOrder | micro_pilot/observer_agent.py:30-52 | any two issues of a scan stand in report order: an earlier row, or the same row and an earlier check |
| ScanProperties.CriticalErrorOnlyWhenNotFound | micro_pilot/observer_agent.py:54-55 | the critical error appears exactly when the file is missing, and then the result is that single text |
| ScanProperties.RowIssuesEmpty | micro_pilot/observer_agent.py:34-52 | a row yields no issue exactly when its tuple is new, no critical column is blank and `order_total` is absent or not below zero |
| ScanProperties.EmptyIffClean | micro_pilot/observer_agent.py:30-52 | the scan finds nothing, so the report is HEALTHY, exactly when every row is clean |
| ScanProperties.DetailInjective | micro_pilot/observer_agent.py:37-52 | two issues of the same row with the same text after the row label are the same issue |
| ScanProperties.MessageInjective | micro_pilot/observer_agent.py:37-55 | two issues with the same text are the same issue |
| ScanProperties.MessageCount | micro_pilot/observer_agent.py:37-55 | each issue's text occurs in the returned list exactly as often as the issue occurs in the scan |
| ScanProperties.MessagesPointwise | micro_pilot/observer_agent.py:37-55 | the returned list has one text per issue, the `k`-th text rendering the `k`-th issue |
| Text.Decimal | micro_pilot/observer_agent.py:37 | `str(n)` of a non-negative integer is a non-empty run of digits without a leading zero |
| Text.DecimalRoundTrip | micro_pilot/observer_agent.py:73-74 | reading the digits of `str(n)` gives back `n` |
| Text.DecimalInjective | micro_pilot/observer_agent.py:73-74 | different numbers print differently |
| Text.Strip | micro_pilot/observer_agent.py:42 | `strip()` leaves an empty string exactly when the value is whitespace only; otherwise the result starts and ends with a non-space |
| Text.StripInfix | micro_pilot/observer_agent.py:42 | `strip()` keeps an infix of the value, with only whitespace cut on either side |
| Reporter.Banner | micro_pilot/observer_agent.py:65-68 | the five banner lines: the rule, the title, the timestamp line, the rule and a blank line. `Reporter.WriteBanner` and `ReportProperties.ReportSummary` state its contract |
| Reporter.FragileLines | micro_pilot/observer_agent.py:73-77 | the lines written when there are issues: the status line, the risk line, a blank line, the heading and one alert per issue. `ReportProperties.FragileSummary` states its contract |
| Reporter.ReportLines | micro_pilot/observer_agent.py:65-77 | the lines of the report: the banner, then the HEALTHY line or the FRAGILE lines. `ReportProperties.ReportSummary` states its contract |
| Reporter.Render | micro_pilot/observer_agent.py:64-77 | the text of the report file, each line ended by a newline. `Reporter.RenderAppend` and `ReportProperties.SplitRender` state its contract |
| Reporter.Alerts | micro_pilot/observer_agent.py:76-77 | there is one `[ALERT]` line per issue |
| Reporter.WriteBanner | micro_pilot/observer_agent.py:64-68 | the four banner writes produce the rule, title, timestamp line, rule and a blank line |
| Reporter.WriteAlerts | micro_pilot/observer_agent.py:76-77 | the alert loop writes `[ALERT] <issue>` for each issue, in order |
| Reporter.WriteFindings | micro_pilot/observer_agent.py:72-77 | the FRAGILE branch writes the status line, the risk line, a blank line, the heading and the alerts |
| Reporter.GenerateReport | micro_pilot/observer_agent.py:60-77 | the report file holds the report lines, each followed by a newline |
| Reporter.RenderAppend | micro_pilot/observer_agent.py:64-77 | writing two runs of lines one after the other gives the text of the joined runs |
| ReportProperties.ReadNumberRoundTrip | micro_pilot/observer_agent.py:73-74 | a number printed between a prefix and a suffix is read back from the line |
| ReportProperties.StatusRead | micro_pilot/observer_agent.py:73 | the FRAGILE status line differs from the HEALTHY line and gives back the anomaly count |
| ReportProperties.RiskRead | micro_pilot/observer_agent.py:74 | the risk line gives back fifty dollars per anomaly |
| ReportProperties.UntaggedAlerts | micro_pilot/observer_agent.py:76-77 | removing the `[ALERT] ` tag from the alert lines gives back every issue verbatim and in order |
| ReportProperties.HealthySummary | micro_pilot/observer_agent.py:64-71 | with no issues the report has six lines, the line after the banner is the HEALTHY line, and it carries no count and no findings |
| ReportProperties.AlertsAfter | micro_pilot/observer_agent.py:75-77 | after the nine lines before them, line `9 + k` is `[ALERT] ` followed by the `k`-th issue, and reading the alerts back gives exactly the issues |
| ReportProperties.FragileSummary | micro_pilot/observer_agent.py:64-77 | with `n > 0` issues the report has `9 + n` lines, states the count `n`, a risk of `n * 50` dollars and lists the issues verbatim in order, line `9 + k` being `[ALERT] ` and the `k`-th issue |
| ReportProperties.ReportSummary | micro_pilot/observer_agent.py:64-77 | the report is HEALTHY exactly when there are no issues; its count, risk and findings are the number of issues, fifty dollars each, and the issues themselves, line `9 + k` being `[ALERT] ` and the `k`-th issue |
| ReportProperties.SplitRender | micro_pilot/observer_agent.py:64-77 | text written line by line, no line holding a newline, splits back into the same lines |
| ReportProperties.ReportLineOneLine | micro_pilot/observer_agent.py:64-77 | no report line holds a newline when neither the timestamp nor any issue does |
| ReportProperties.ReportFileLines | micro_pilot/observer_agent.py:64-77 | the report file, split at its newlines, gives back exactly the report lines |
| Scenarios.SampleRepeats | micro_pilot/observer_agent.py:86-90 | among the sample rows only the fourth repeats an earlier row |
| Scenarios.SampleRowIssues | micro_pilot/observer_agent.py:86-92 | the sample file gives a missing email in row 3, a negative total in row 4 and a duplicate in row 5, in that order |
| Scenarios.SampleMessages | micro_pilot/observer_agent.py:86-92 | `scan_data` on the sample file returns the three texts "Row 3: Critical Data Missing in 'email'.", "Row 4: Negative Value in 'order_total' ($-20.0)." and "Row 5: Duplicate Record detected." |
| Scenarios.SampleReport | micro_pilot/observer_agent.py:93 | the report of the demonstration run has twelve lines, counts three anomalies, puts $150 at risk and lists the three findings |
| Scenarios.MissingFileReport | micro_pilot/observer_agent.py:54-55 | without a data file the report reads "STATUS: FRAGILE. 1 anomalies detected.", puts $50 at risk and lists the critical error |
| Scenarios.RunDemonstration | micro_pilot/observer_agent.py:92-93 | scanning the sample file and writing its report produces the report of the three sample findings |

## Left out

- Opening and reading the CSV file and the tokenisation done by `csv.DictReader` are not modelled. This is library I/O; the model starts from the already-split rows.
  - Quoting and embedded newlines are not modelled. With them a row's line number would differ from `i + 2`.
  - Duplicate header names are not modelled. The model assumes distinct column names. Python's dict keeps the last value of a repeated name and one entry per distinct name, whereas `Scanner.Lookup` takes the first pair and `Scanner.Values` keeps every pair.
  - Blank lines are skipped by `csv.DictReader`. After one, a row's line number in the file also differs from `i + 2`.
- Ragged rows are not modelled, because a row in the model maps every column to a string. In the code:
  - A row shorter than the header holds `None` for its missing trailing fields. If one of them is a critical column, `row[col].strip()` (line 42) raises `AttributeError`. This covers `order_total`, which line 42 checks before `float()` on line 48 is reached. The exception is not caught and ends the agent. A short row missing only non-critical columns is scanned normally, with `None` in its value tuple.
  - A row longer than the header puts the list of extra fields under the key `None`. Its value tuple then holds a list, so `row_tuple in seen_rows` (line 36) raises `TypeError`, because a list cannot be hashed.
- Exceptions other than `FileNotFoundError` (permission errors, decoding errors) are not modelled. They propagate out of `scan_data`.
- `float()` parsing is not modelled: whitespace, `inf`/`nan`, `-0.0`, and how Python prints the parsed value in `${val}`. These are floating-point specifics. They are the parameter `parse`, whose `Negative(shown)` outcome carries the printed text.
- `datetime.now()`, the timestamp format and the `print` notices (lines 20, 57, 62, 79, 84) are not modelled. The timestamp is a parameter holding the formatted text; the notices are side effects only.
- `row_count` is not modelled. It feeds only the completion notice.
- The report file is not written. The model produces the text `generate_report` writes, by `Reporter.Render`.
- `Scenarios.RunDemonstration`: the `os.path.exists` test and the creation of the sample file (lines 83-90) are not modelled. The method starts from the rows of the freshly written file; the sample's `float()` results are given by `Scenarios.SampleParse`.
- The model splits the body of `scan_data` into `Scanner.CheckDuplicate`, `Scanner.CheckCriticalColumns`, `Scanner.CheckOrderTotal`, `Scanner.ScanRow` and `Scanner.ScanAllRows`. The source has one function; the split keeps each proof small. The order of the steps is the source's.

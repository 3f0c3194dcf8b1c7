/** The report writer of the observer agent (`generate_report` in micro_pilot/observer_agent.py).
    The report file is modelled by its text: every `f.write` appends to it. The clock
    reading is passed in as the already formatted timestamp. */
module Reporter {
  import opened Text

  /** The banner rule: fifty '=' characters. */
  const Rule: string := Repeat('=', 50)
  const Title: string := "LOGICFLOW SYSTEMS: FRAGILITY REPORT"
  const GeneratedPrefix: string := "Generated: "
  const HealthyLine: string := "STATUS: HEALTHY. No anomalies detected."
  const StatusPrefix: string := "STATUS: FRAGILE. "
  const StatusSuffix: string := " anomalies detected."
  const RiskPrefix: string := "ESTIMATED REVENUE RISK: $"
  const RiskSuffix: string := " (Est. $50 friction/error)"
  const FindingsHeading: string := "DETAILED FINDINGS:"
  const AlertPrefix: string := "[ALERT] "

  function Repeat(c: char, n: nat): (s: string)
    ensures |s| == n && forall j :: 0 <= j < n ==> s[j] == c
  {
    if n == 0 then [] else Repeat(c, n - 1) + [c]
  }

  /** Dollars of revenue put at risk by each reported issue. */
  const FrictionPerIssue: nat := 50

  function StatusLine(n: nat): string {
    StatusPrefix + Decimal(n) + StatusSuffix
  }

  function RiskLine(n: nat): string {
    RiskPrefix + Decimal(n * FrictionPerIssue) + RiskSuffix
  }

  /** One `[ALERT]` line per finding, in the order given. */
  function Alerts(issues: seq<string>): (r: seq<string>)
    ensures |r| == |issues|
  {
    if issues == [] then [] else Alerts(issues[..|issues| - 1]) + [AlertPrefix + issues[|issues| - 1]]
  }

  /** The banner at the top of every report, closed by a blank line. */
  function Banner(timestamp: string): seq<string> {
    [Rule, Title, GeneratedPrefix + timestamp, Rule, ""]
  }

  /** The status part of a report that has findings. */
  function FragileLines(issues: seq<string>): seq<string> {
    [StatusLine(|issues|), RiskLine(|issues|), "", FindingsHeading] + Alerts(issues)
  }

  /** The lines of the report: the banner, then either the healthy status or the fragile
      status, the risk estimate, a blank line, the heading and the findings. */
  function ReportLines(issues: seq<string>, timestamp: string): seq<string> {
    Banner(timestamp) + if issues == [] then [HealthyLine] else FragileLines(issues)
  }

  /** The text of a file holding `lines`, each one ended by a newline. */
  function Render(lines: seq<string>): string {
    if lines == [] then [] else Render(lines[..|lines| - 1]) + lines[|lines| - 1] + "\n"
  }

  lemma RenderSnoc(lines: seq<string>, line: string)
    ensures Render(lines + [line]) == Render(lines) + line + "\n"
  {
    assert (lines + [line])[..|lines|] == lines;
  }

  lemma {:induction false} RenderAppend(a: seq<string>, b: seq<string>)
    ensures Render(a + b) == Render(a) + Render(b)
  {
    if b != [] {
      var n := |b| - 1;
      assert (a + b)[..|a + b| - 1] == a + b[..n];
      RenderAppend(a, b[..n]);
    } else {
      assert a + b == a;
    }
  }

  lemma AlertsSnoc(issues: seq<string>, i: nat)
    requires i < |issues|
    ensures Alerts(issues[..i + 1]) == Alerts(issues[..i]) + [AlertPrefix + issues[i]]
  {
    assert issues[..i + 1][..i] == issues[..i];
  }

  /** `generate_report`: the text it writes to the report file, write by write. */
  method GenerateReport(issues: seq<string>, timestamp: string) returns (written: string)
    ensures written == Render(ReportLines(issues, timestamp))
  {
    written := WriteBanner(timestamp);
    if |issues| == 0 {
      written := written + HealthyLine + "\n";
      RenderSnoc(Banner(timestamp), HealthyLine);
    } else {
      var findings := WriteFindings(issues);
      written := written + findings;
      RenderAppend(Banner(timestamp), FragileLines(issues));
    }
  }

  /** The four writes of the banner. */
  method WriteBanner(timestamp: string) returns (written: string)
    ensures written == Render(Banner(timestamp))
  {
    ghost var lines: seq<string> := [];
    written := "";
    written := written + Rule + "\n";
    RenderSnoc(lines, Rule);
    lines := lines + [Rule];
    written := written + Title + "\n";
    RenderSnoc(lines, Title);
    lines := lines + [Title];
    written := written + GeneratedPrefix + timestamp + "\n";
    RenderSnoc(lines, GeneratedPrefix + timestamp);
    lines := lines + [GeneratedPrefix + timestamp];
    written := written + Rule + "\n\n";
    RenderSnoc(lines, Rule);
    RenderSnoc(lines + [Rule], "");
    lines := lines + [Rule] + [""];
    assert lines == Banner(timestamp);
  }

  /** The writes of the `else` branch: status, risk, heading and one `[ALERT]` line per issue. */
  method WriteFindings(issues: seq<string>) returns (written: string)
    requires issues != []
    ensures written == Render(FragileLines(issues))
  {
    ghost var lines: seq<string> := [];
    var n := |issues|;
    written := "";
    written := written + StatusLine(n) + "\n";
    RenderSnoc(lines, StatusLine(n));
    lines := lines + [StatusLine(n)];
    written := written + RiskLine(n) + "\n\n";
    RenderSnoc(lines, RiskLine(n));
    RenderSnoc(lines + [RiskLine(n)], "");
    lines := lines + [RiskLine(n)] + [""];
    written := written + FindingsHeading + "\n";
    RenderSnoc(lines, FindingsHeading);
    lines := lines + [FindingsHeading];
    var alerts := WriteAlerts(issues);
    written := written + alerts;
    RenderAppend(lines, Alerts(issues));
    assert lines + Alerts(issues) == FragileLines(issues);
  }

  /** The `for issue in issues` loop: one `[ALERT]` line per issue, in order. */
  method WriteAlerts(issues: seq<string>) returns (written: string)
    ensures written == Render(Alerts(issues))
  {
    ghost var lines: seq<string> := [];
    written := "";
    var i := 0;
    while i < |issues|
      invariant i <= |issues|
      invariant lines == Alerts(issues[..i])
      invariant written == Render(lines)
    {
      written := written + AlertPrefix + issues[i] + "\n";
      RenderSnoc(lines, AlertPrefix + issues[i]);
      AlertsSnoc(issues, i);
      lines := lines + [AlertPrefix + issues[i]];
      i := i + 1;
    }
    assert issues[..i] == issues;
  }
}

/** What a reader of the fragility report can recover from it: the status, the number of
    anomalies, the revenue estimate and every finding, verbatim and in order. */
module ReportProperties {
  import opened Optional
  import opened Text
  import opened Reporter

  /** The number between `prefix` and `suffix` on a line, if the line has that shape. */
  function ReadNumber(line: string, prefix: string, suffix: string): Option<nat> {
    if |prefix| + |suffix| < |line| && line[..|prefix|] == prefix && line[|line| - |suffix|..] == suffix
       && AllDigits(line[|prefix|..|line| - |suffix|])
    then Some(DigitsValue(line[|prefix|..|line| - |suffix|]))
    else None
  }

  lemma ReadNumberRoundTrip(prefix: string, n: nat, suffix: string)
    ensures ReadNumber(prefix + Decimal(n) + suffix, prefix, suffix) == Some(n)
  {
    var line := prefix + Decimal(n) + suffix;
    assert line[..|prefix|] == prefix;
    assert line[|line| - |suffix|..] == suffix;
    assert line[|prefix|..|line| - |suffix|] == Decimal(n);
    DecimalRoundTrip(n);
  }

  /** The anomaly count a reader takes from the status line. */
  function ReadCount(line: string): Option<nat> {
    ReadNumber(line, StatusPrefix, StatusSuffix)
  }

  /** The dollar estimate a reader takes from the risk line. */
  function ReadRisk(line: string): Option<nat> {
    ReadNumber(line, RiskPrefix, RiskSuffix)
  }

  /** The findings a reader takes from the lines after the heading, each without its tag. */
  function Untagged(alerts: seq<string>): seq<string> {
    if alerts == [] then []
    else
      var last := alerts[|alerts| - 1];
      Untagged(alerts[..|alerts| - 1])
      + [if |AlertPrefix| <= |last| && last[..|AlertPrefix|] == AlertPrefix then last[|AlertPrefix|..] else last]
  }

  function Findings(lines: seq<string>): seq<string> {
    if |lines| <= 9 then [] else Untagged(lines[9..])
  }

  lemma {:induction false} UntaggedAlerts(issues: seq<string>)
    ensures Untagged(Alerts(issues)) == issues
  {
    if issues != [] {
      var n := |issues| - 1;
      var line := AlertPrefix + issues[n];
      assert Alerts(issues)[..n] == Alerts(issues[..n]);
      assert line[..|AlertPrefix|] == AlertPrefix && line[|AlertPrefix|..] == issues[n];
      UntaggedAlerts(issues[..n]);
      assert issues == issues[..n] + [issues[n]];
    }
  }

  /** The report is HEALTHY exactly when there are no issues. Otherwise its status line
      carries the number of issues, its risk line fifty dollars per issue, and the lines
      after the heading carry every issue verbatim and in order. */
  lemma ReportSummary(issues: seq<string>, timestamp: string)
    ensures var lines := ReportLines(issues, timestamp);
      && |lines| == (if issues == [] then 6 else 9 + |issues|)
      && lines[2] == GeneratedPrefix + timestamp
      && (lines[5] == HealthyLine <==> issues == [])
      && ReadCount(lines[5]) == (if issues == [] then None else Some(|issues|))
      && (issues != [] ==> ReadRisk(lines[6]) == Some(|issues| * FrictionPerIssue))
      && Findings(lines) == issues
      && (forall k :: 0 <= k < |issues| ==> lines[9 + k] == AlertPrefix + issues[k])
  {
    if issues == [] {
      HealthySummary(timestamp);
    } else {
      FragileSummary(issues, timestamp);
    }
  }

  lemma HealthySummary(timestamp: string)
    ensures var lines := ReportLines([], timestamp);
      && |lines| == 6 && lines[2] == GeneratedPrefix + timestamp && lines[5] == HealthyLine
      && ReadCount(lines[5]) == None && Findings(lines) == []
  {
    assert HealthyLine[..|StatusPrefix|] != StatusPrefix by {
      assert HealthyLine[..|StatusPrefix|][8] != StatusPrefix[8];
    }
  }

  lemma FragileSummary(issues: seq<string>, timestamp: string)
    requires issues != []
    ensures var lines := ReportLines(issues, timestamp);
      && |lines| == 9 + |issues| && lines[2] == GeneratedPrefix + timestamp && lines[5] != HealthyLine
      && ReadCount(lines[5]) == Some(|issues|)
      && ReadRisk(lines[6]) == Some(|issues| * FrictionPerIssue)
      && Findings(lines) == issues
      && forall k :: 0 <= k < |issues| ==> lines[9 + k] == AlertPrefix + issues[k]
  {
    var n := |issues|;
    var head := Banner(timestamp) + [StatusLine(n), RiskLine(n), "", FindingsHeading];
    assert ReportLines(issues, timestamp) == head + Alerts(issues);
    assert head[2] == GeneratedPrefix + timestamp && head[5] == StatusLine(n) && head[6] == RiskLine(n);
    StatusRead(n);
    RiskRead(n);
    AlertsAfter(head, issues);
  }

  /** After the nine lines that precede them, the alert lines render the issues one by one
      and are read back as exactly those issues. */
  lemma AlertsAfter(head: seq<string>, issues: seq<string>)
    requires |head| == 9
    ensures var lines := head + Alerts(issues);
      && |lines| == 9 + |issues| && lines[..9] == head
      && Findings(lines) == issues
      && forall k :: 0 <= k < |issues| ==> lines[9 + k] == AlertPrefix + issues[k]
  {
    var lines := head + Alerts(issues);
    assert lines[9..] == Alerts(issues);
    UntaggedAlerts(issues);
    forall k | 0 <= k < |issues| ensures lines[9 + k] == AlertPrefix + issues[k] {
      AlertsAt(issues, k);
    }
  }

  /** The status line of a FRAGILE report is not the HEALTHY line, and gives back its count. */
  lemma StatusRead(n: nat)
    ensures StatusLine(n) != HealthyLine && ReadCount(StatusLine(n)) == Some(n)
  {
    assert StatusLine(n)[8] != HealthyLine[8];
    ReadNumberRoundTrip(StatusPrefix, n, StatusSuffix);
  }

  /** The risk line gives back fifty dollars per issue. */
  lemma RiskRead(n: nat)
    ensures ReadRisk(RiskLine(n)) == Some(n * FrictionPerIssue)
  {
    ReadNumberRoundTrip(RiskPrefix, n * FrictionPerIssue, RiskSuffix);
  }

  /** Length of the first line of `t`, which ends at the first newline or at the end. */
  function LineEnd(t: string): (k: nat)
    ensures k <= |t| && (k < |t| ==> t[k] == '\n')
    ensures forall j :: 0 <= j < k ==> t[j] != '\n'
  {
    if t == [] || t[0] == '\n' then 0 else 1 + LineEnd(t[1..])
  }

  /** The lines of a text, as a reader of the report file sees them. */
  function SplitLines(t: string): seq<string>
    decreases |t|
  {
    if t == [] then []
    else
      var k := LineEnd(t);
      if k == |t| then [t] else [t[..k]] + SplitLines(t[k + 1..])
  }

  lemma {:induction false} LineEndAfter(line: string, rest: string)
    requires '\n' !in line
    ensures LineEnd(line + "\n" + rest) == |line|
  {
    var t := line + "\n" + rest;
    assert t[|line|] == '\n';
    assert forall j :: 0 <= j < |line| ==> t[j] == line[j];
  }

  lemma {:induction false} RenderFirst(line: string, rest: seq<string>)
    ensures Render([line] + rest) == line + "\n" + Render(rest)
  {
    RenderAppend([line], rest);
    RenderSnoc([], line);
    assert [] + [line] == [line];
  }

  /** Text written line by line reads back as the same lines, when no line holds a newline. */
  lemma {:induction false} SplitRender(lines: seq<string>)
    requires forall k :: 0 <= k < |lines| ==> '\n' !in lines[k]
    ensures SplitLines(Render(lines)) == lines
  {
    if lines != [] {
      var line, rest := lines[0], lines[1..];
      assert lines == [line] + rest;
      RenderFirst(line, rest);
      var t := line + "\n" + Render(rest);
      LineEndAfter(line, Render(rest));
      assert t[..|line|] == line && t[|line| + 1..] == Render(rest);
      SplitRender(rest);
    }
  }

  lemma {:induction false} AlertsAt(issues: seq<string>, k: nat)
    requires k < |issues|
    ensures Alerts(issues)[k] == AlertPrefix + issues[k]
  {
    var n := |issues| - 1;
    if k < n {
      AlertsAt(issues[..n], k);
    }
  }

  lemma DecimalOneLine(n: nat)
    ensures '\n' !in Decimal(n)
  {
    var d := Decimal(n);
    assert forall j :: 0 <= j < |d| ==> IsDigit(d[j]) && d[j] != '\n';
  }

  /** None of the fixed texts of the report holds a line break. */
  lemma FixedTextOneLine()
    ensures '\n' !in Rule && '\n' !in Title && '\n' !in GeneratedPrefix && '\n' !in HealthyLine
    ensures '\n' !in StatusPrefix && '\n' !in StatusSuffix && '\n' !in RiskPrefix && '\n' !in RiskSuffix
    ensures '\n' !in FindingsHeading && '\n' !in AlertPrefix
  {
    RuleOneLine();
    TitleOneLine();
    HealthyOneLine();
    StatusOneLine();
    RiskOneLine();
  }

  lemma RuleOneLine()
    ensures '\n' !in Rule
  {
    assert forall j :: 0 <= j < |Rule| ==> Rule[j] != '\n';
  }

  lemma TitleOneLine()
    ensures '\n' !in Title && '\n' !in GeneratedPrefix
  {
  }

  lemma HealthyOneLine()
    ensures '\n' !in HealthyLine
  {
  }

  lemma StatusOneLine()
    ensures '\n' !in StatusPrefix && '\n' !in StatusSuffix && '\n' !in FindingsHeading
  {
  }

  lemma RiskOneLine()
    ensures '\n' !in RiskPrefix && '\n' !in RiskSuffix && '\n' !in AlertPrefix
  {
  }

  lemma OneLineJoin(a: string, b: string, c: string)
    requires '\n' !in a && '\n' !in b && '\n' !in c
    ensures '\n' !in a + b + c
  {
  }

  lemma ReportLineOneLine(issues: seq<string>, timestamp: string, k: nat)
    requires '\n' !in timestamp
    requires forall k :: 0 <= k < |issues| ==> '\n' !in issues[k]
    requires k < |ReportLines(issues, timestamp)|
    ensures '\n' !in ReportLines(issues, timestamp)[k]
  {
    var lines := ReportLines(issues, timestamp);
    var line := lines[k];
    FixedTextOneLine();
    if k < 5 {
      assert line == Banner(timestamp)[k];
      assert '\n' !in line by {
        OneLineJoin(GeneratedPrefix, timestamp, "");
        assert GeneratedPrefix + timestamp + "" == GeneratedPrefix + timestamp;
      }
    } else if issues == [] {
      assert line == HealthyLine;
    } else if k == 5 {
      assert line == StatusPrefix + Decimal(|issues|) + StatusSuffix;
      assert '\n' !in line by {
        DecimalOneLine(|issues|);
        OneLineJoin(StatusPrefix, Decimal(|issues|), StatusSuffix);
      }
    } else if k == 6 {
      assert line == RiskPrefix + Decimal(|issues| * FrictionPerIssue) + RiskSuffix;
      assert '\n' !in line by {
        DecimalOneLine(|issues| * FrictionPerIssue);
        OneLineJoin(RiskPrefix, Decimal(|issues| * FrictionPerIssue), RiskSuffix);
      }
    } else if k < 9 {
      assert line == FragileLines(issues)[k - 5];
    } else {
      assert line == Alerts(issues)[k - 9];
      assert '\n' !in line by {
        AlertsAt(issues, k - 9);
        OneLineJoin(AlertPrefix, issues[k - 9], "");
        assert AlertPrefix + issues[k - 9] + "" == AlertPrefix + issues[k - 9];
      }
    }
  }

  /** The report file, read back line by line, holds exactly the report's lines, provided
      neither the timestamp nor any finding contains a line break. */
  lemma ReportFileLines(issues: seq<string>, timestamp: string)
    requires '\n' !in timestamp
    requires forall k :: 0 <= k < |issues| ==> '\n' !in issues[k]
    ensures SplitLines(Render(ReportLines(issues, timestamp))) == ReportLines(issues, timestamp)
  {
    var lines := ReportLines(issues, timestamp);
    forall k | 0 <= k < |lines| ensures '\n' !in lines[k] {
      ReportLineOneLine(issues, timestamp, k);
    }
    SplitRender(lines);
  }
}

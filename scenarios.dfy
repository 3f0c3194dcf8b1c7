/** The demonstration run of the observer agent: the four-row sample file it creates, the
    three anomalies it reports about it, and the report written for them; also the run on a
    file that does not exist. */
module Scenarios {
  import opened Optional
  import opened Text
  import opened Scanner
  import opened Reporter
  import opened ReportProperties

  function Order(id: string, email: string, total: string, address: string): Row {
    [("order_id", id), ("email", email), ("order_total", total), ("shipping_address", address)]
  }

  /** The sample rows: a good order, one without an email, one with a negative total, and a
      repeat of the first. */
  function SampleRows(): seq<Row> {
    [ Order("1001", "chuck@example.com", "120.50", "123 Main St"),
      Order("1002", "", "50.00", "456 Oak Ave"),
      Order("1003", "dave@example.com", "-20.00", "789 Pine St"),
      Order("1001", "chuck@example.com", "120.50", "123 Main St") ]
  }

  /** What `float` makes of the three totals of the sample: only "-20.00" is below zero,
      and it prints as "-20.0". */
  function SampleParse(raw: string): Parsed {
    if raw == "-20.00" then Negative("-20.0") else NonNegative
  }

  lemma OrderLookups(id: string, email: string, total: string, address: string)
    ensures var row := Order(id, email, total, address);
      && Lookup(row, "email") == Some(email)
      && Lookup(row, OrderTotal) == Some(total)
      && Lookup(row, "shipping_address") == Some(address)
  {
    var row := Order(id, email, total, address);
    var r1, r2, r3 := row[1..], row[1..][1..], row[1..][1..][1..];
    assert r1 == [("email", email), ("order_total", total), ("shipping_address", address)];
    assert r2 == [("order_total", total), ("shipping_address", address)];
    assert r3 == [("shipping_address", address)];
    assert "order_id"[0] != "email"[0] && "order_id"[6] != "order_total"[6] && "order_id"[0] != "shipping_address"[0];
    assert "email"[0] != "order_total"[0] && "email"[0] != "shipping_address"[0];
    assert "order_total"[0] != "shipping_address"[0];
    assert Lookup(r3, "shipping_address") == Some(address);
    assert Lookup(r2, "shipping_address") == Some(address);
    assert Lookup(r1, "shipping_address") == Some(address);
    assert Lookup(r2, OrderTotal) == Some(total);
    assert Lookup(r1, OrderTotal) == Some(total);
    assert Lookup(r1, "email") == Some(email);
  }

  lemma OrderValues(id: string, email: string, total: string, address: string)
    ensures Values(Order(id, email, total, address)) == [id, email, total, address]
  {
    var row := Order(id, email, total, address);
    assert row[..3][..2][..1] == [("order_id", id)];
    assert row[..3][..2] == [("order_id", id), ("email", email)];
    assert row[..3] == [("order_id", id), ("email", email), ("order_total", total)];
    assert Values(row[..3][..2][..1]) == [id];
    assert Values(row[..3][..2]) == [id, email];
    assert Values(row[..3]) == [id, email, total];
  }

  /** The critical-column checks on one order row, column by column. */
  lemma OrderMissing(id: string, email: string, total: string, address: string, rowId: nat)
    ensures MissingIssues(Order(id, email, total, address), rowId, CriticalColumns)
         == (if AllSpace(email) then [Missing(rowId, "email")] else [])
            + (if AllSpace(total) then [Missing(rowId, "order_total")] else [])
            + (if AllSpace(address) then [Missing(rowId, "shipping_address")] else [])
  {
    var row := Order(id, email, total, address);
    OrderLookups(id, email, total, address);
    assert BlankIn(row, "email") == AllSpace(email);
    assert BlankIn(row, "order_total") == AllSpace(total);
    assert BlankIn(row, "shipping_address") == AllSpace(address);
    MissingOfThree(row, rowId, "email", "order_total", "shipping_address");
  }

  lemma MissingOfThree(row: Row, id: nat, c0: string, c1: string, c2: string)
    ensures MissingIssues(row, id, [c0, c1, c2])
         == (if BlankIn(row, c0) then [Missing(id, c0)] else [])
            + (if BlankIn(row, c1) then [Missing(id, c1)] else [])
            + (if BlankIn(row, c2) then [Missing(id, c2)] else [])
  {
    var e0 := if BlankIn(row, c0) then [Missing(id, c0)] else [];
    var e1 := if BlankIn(row, c1) then [Missing(id, c1)] else [];
    var e2 := if BlankIn(row, c2) then [Missing(id, c2)] else [];
    assert [c0][..0] == [] && [c0, c1][..1] == [c0] && [c0, c1, c2][..2] == [c0, c1];
    assert MissingIssues(row, id, [c0]) == [] + e0;
    assert MissingIssues(row, id, [c0, c1]) == e0 + e1;
    assert MissingIssues(row, id, [c0, c1, c2]) == e0 + e1 + e2;
  }

  /** The `order_total` check on one order row. */
  lemma OrderTotalIssues(id: string, email: string, total: string, address: string, rowId: nat,
                         parse: string -> Parsed)
    ensures TotalIssues(Order(id, email, total, address), rowId, parse)
         == match parse(total)
            case Invalid => [InvalidFormat(rowId, total)]
            case Negative(shown) => [NegativeValue(rowId, shown)]
            case NonNegative => []
  {
    OrderLookups(id, email, total, address);
  }

  /** The value tuples of the sample rows: the fourth repeats the first, the others differ. */
  lemma SampleTuples()
    ensures var rows := SampleRows();
      && Values(rows[0]) == Values(rows[3]) == ["1001", "chuck@example.com", "120.50", "123 Main St"]
      && Values(rows[1]) == ["1002", "", "50.00", "456 Oak Ave"]
      && Values(rows[2]) == ["1003", "dave@example.com", "-20.00", "789 Pine St"]
      && Values(rows[1]) != Values(rows[0]) && Values(rows[2]) != Values(rows[0]) && Values(rows[2]) != Values(rows[1])
      && SeenTuples(rows[..0]) == {}
      && SeenTuples(rows[..1]) == {Values(rows[0])}
      && SeenTuples(rows[..2]) == {Values(rows[0]), Values(rows[1])}
      && SeenTuples(rows[..3]) == {Values(rows[0]), Values(rows[1]), Values(rows[2])}
  {
    var rows := SampleRows();
    OrderValues("1001", "chuck@example.com", "120.50", "123 Main St");
    OrderValues("1002", "", "50.00", "456 Oak Ave");
    OrderValues("1003", "dave@example.com", "-20.00", "789 Pine St");
    assert "1002"[3] != "1001"[3] && "1003"[3] != "1001"[3] && "1003"[3] != "1002"[3];
    assert Values(rows[1])[0] != Values(rows[0])[0];
    assert Values(rows[2])[0] != Values(rows[0])[0];
    assert Values(rows[2])[0] != Values(rows[1])[0];
    assert SeenTuples(rows[..0]) == {};
    SeenTuplesSnoc(rows, 0);
    SeenTuplesSnoc(rows, 1);
    SeenTuplesSnoc(rows, 2);
  }

  lemma NotBlank(s: string)
    requires s != [] && !IsSpace(s[0])
    ensures !AllSpace(s)
  {
  }

  /** Every field of the sample is filled in, except the email of the second row. */
  lemma SampleFields()
    ensures !AllSpace("chuck@example.com") && !AllSpace("120.50") && !AllSpace("123 Main St")
    ensures AllSpace("") && !AllSpace("50.00") && !AllSpace("456 Oak Ave")
    ensures !AllSpace("dave@example.com") && !AllSpace("-20.00") && !AllSpace("789 Pine St")
  {
    NotBlank("chuck@example.com");
    NotBlank("120.50");
    NotBlank("123 Main St");
    NotBlank("50.00");
    NotBlank("456 Oak Ave");
    NotBlank("dave@example.com");
    NotBlank("-20.00");
    NotBlank("789 Pine St");
  }

  lemma SampleTotals()
    ensures SampleParse("120.50") == NonNegative && SampleParse("50.00") == NonNegative
    ensures SampleParse("-20.00") == Negative("-20.0")
  {
    assert "120.50"[0] != "-20.00"[0] && "50.00"[0] != "-20.00"[0];
  }

  lemma SampleRow0()
    ensures RowIssues(SampleRows()[0], 0, {}, SampleParse) == []
  {
    var row := Order("1001", "chuck@example.com", "120.50", "123 Main St");
    assert SampleRows()[0] == row;
    assert MissingIssues(row, 2, CriticalColumns) == [] by {
      SampleFields();
      OrderMissing("1001", "chuck@example.com", "120.50", "123 Main St", 2);
    }
    assert TotalIssues(row, 2, SampleParse) == [] by {
      SampleTotals();
      OrderTotalIssues("1001", "chuck@example.com", "120.50", "123 Main St", 2, SampleParse);
    }
    assert DuplicateIssues(row, 2, {}) == [];
  }

  lemma SampleRow1(seen: set<seq<string>>)
    requires Values(SampleRows()[1]) !in seen
    ensures RowIssues(SampleRows()[1], 1, seen, SampleParse) == [Missing(3, "email")]
  {
    var row := Order("1002", "", "50.00", "456 Oak Ave");
    assert SampleRows()[1] == row;
    assert MissingIssues(row, 3, CriticalColumns) == [Missing(3, "email")] by {
      SampleFields();
      OrderMissing("1002", "", "50.00", "456 Oak Ave", 3);
    }
    assert TotalIssues(row, 3, SampleParse) == [] by {
      SampleTotals();
      OrderTotalIssues("1002", "", "50.00", "456 Oak Ave", 3, SampleParse);
    }
    assert DuplicateIssues(row, 3, seen) == [];
  }

  lemma SampleRow2(seen: set<seq<string>>)
    requires Values(SampleRows()[2]) !in seen
    ensures RowIssues(SampleRows()[2], 2, seen, SampleParse) == [NegativeValue(4, "-20.0")]
  {
    var row := Order("1003", "dave@example.com", "-20.00", "789 Pine St");
    assert SampleRows()[2] == row;
    assert MissingIssues(row, 4, CriticalColumns) == [] by {
      SampleFields();
      OrderMissing("1003", "dave@example.com", "-20.00", "789 Pine St", 4);
    }
    assert TotalIssues(row, 4, SampleParse) == [NegativeValue(4, "-20.0")] by {
      SampleTotals();
      OrderTotalIssues("1003", "dave@example.com", "-20.00", "789 Pine St", 4, SampleParse);
    }
    assert DuplicateIssues(row, 4, seen) == [];
  }

  lemma SampleRow3(seen: set<seq<string>>)
    requires Values(SampleRows()[3]) in seen
    ensures RowIssues(SampleRows()[3], 3, seen, SampleParse) == [Duplicate(5)]
  {
    var row := Order("1001", "chuck@example.com", "120.50", "123 Main St");
    assert SampleRows()[3] == row;
    assert MissingIssues(row, 5, CriticalColumns) == [] by {
      SampleFields();
      OrderMissing("1001", "chuck@example.com", "120.50", "123 Main St", 5);
    }
    assert TotalIssues(row, 5, SampleParse) == [] by {
      SampleTotals();
      OrderTotalIssues("1001", "chuck@example.com", "120.50", "123 Main St", 5, SampleParse);
    }
    assert DuplicateIssues(row, 5, seen) == [Duplicate(5)];
  }

  /** Which sample rows repeat an earlier row: only the fourth. */
  lemma SampleRepeats()
    ensures var rows := SampleRows();
      && Values(rows[1]) !in SeenTuples(rows[..1])
      && Values(rows[2]) !in SeenTuples(rows[..2])
      && Values(rows[3]) in SeenTuples(rows[..3])
  {
    SampleTuples();
  }

  lemma SampleFirstTwoRows()
    ensures ScanRows(SampleRows()[..2], SampleParse) == [Missing(3, "email")]
  {
    var rows := SampleRows();
    SampleRepeats();
    assert SeenTuples(rows[..0]) == {} by { assert rows[..0] == []; }
    ScanRowsSnoc(rows, 0, SampleParse);
    SampleRow0();
    assert ScanRows(rows[..1], SampleParse) == [];
    ScanRowsSnoc(rows, 1, SampleParse);
    SampleRow1(SeenTuples(rows[..1]));
    Pair([], Missing(3, "email"));
  }

  lemma SampleFirstThreeRows()
    ensures ScanRows(SampleRows()[..3], SampleParse) == [Missing(3, "email"), NegativeValue(4, "-20.0")]
  {
    var rows := SampleRows();
    SampleRepeats();
    SampleFirstTwoRows();
    ScanRowsSnoc(rows, 2, SampleParse);
    SampleRow2(SeenTuples(rows[..2]));
    Pair([Missing(3, "email")], NegativeValue(4, "-20.0"));
  }

  /** The scan of the sample finds the missing email of row 3, the negative total of row 4
      and the duplicate in row 5, in that order. */
  lemma SampleRowIssues()
    ensures ScanRows(SampleRows(), SampleParse) == [Missing(3, "email"), NegativeValue(4, "-20.0"), Duplicate(5)]
  {
    var rows := SampleRows();
    SampleRepeats();
    SampleFirstThreeRows();
    ScanRowsSnoc(rows, 3, SampleParse);
    SampleRow3(SeenTuples(rows[..3]));
    Pair([Missing(3, "email"), NegativeValue(4, "-20.0")], Duplicate(5));
    assert |rows| == 4;
    TakeAll(rows);
  }

  /** The three lines the scan of the sample returns, each a row label and a detail. */
  const SampleFindings: seq<string> :=
    [ "Row 3" + ": Critical Data Missing in 'email'.",
      "Row 4" + ": Negative Value in 'order_total' ($-20.0).",
      "Row 5" + ": Duplicate Record detected." ]

  /** The numerals the demonstration run prints. */
  lemma SmallDecimals()
    ensures Decimal(1) == "1" && Decimal(3) == "3" && Decimal(4) == "4" && Decimal(5) == "5"
  {
  }

  lemma RowLabels()
    ensures "Row " + Decimal(3) == "Row 3" && "Row " + Decimal(4) == "Row 4" && "Row " + Decimal(5) == "Row 5"
  {
    SmallDecimals();
  }

  lemma SampleMessageTexts()
    ensures Message(Missing(3, "email")) == SampleFindings[0]
    ensures Message(NegativeValue(4, "-20.0")) == SampleFindings[1]
    ensures Message(Duplicate(5)) == SampleFindings[2]
  {
    RowLabels();
    assert Detail(Missing(3, "email")) == ": Critical Data Missing in 'email'.";
    assert Detail(NegativeValue(4, "-20.0")) == ": Negative Value in 'order_total' ($-20.0).";
  }

  lemma MessagesOfThree(a: Issue, b: Issue, c: Issue)
    ensures Messages([a, b, c]) == [Message(a), Message(b), Message(c)]
  {
    var xs := [a, b, c];
    assert xs[..2][..1] == [a] && xs[..2] == [a, b];
    assert Messages([a]) == [Message(a)] by {
      assert [a][..0] == [];
    }
  }

  /** The findings of the demonstration run, as `scan_data` returns them. */
  lemma SampleMessages()
    ensures Messages(Scan(Found(SampleRows()), SampleParse)) == SampleFindings
  {
    SampleRowIssues();
    MessagesOfThree(Missing(3, "email"), NegativeValue(4, "-20.0"), Duplicate(5));
    SampleMessageTexts();
  }

  /** The report of the demonstration run: a reader finds three anomalies, $150 at risk, and
      the three findings after the heading. */
  lemma SampleReport(timestamp: string)
    ensures var lines := ReportLines(SampleFindings, timestamp);
      && |lines| == 12
      && ReadCount(lines[5]) == Some(3)
      && ReadRisk(lines[6]) == Some(150)
      && Findings(lines) == SampleFindings
  {
    FragileSummary(SampleFindings, timestamp);
  }

  /** Without a data file the scan returns only the critical error, which the report counts
      as one anomaly ("1 anomalies", as the format string has it) worth $50. */
  lemma MissingFileReport(parse: string -> Parsed, timestamp: string)
    ensures Messages(Scan(NotFound, parse)) == [FileNotFoundText]
    ensures var lines := ReportLines([FileNotFoundText], timestamp);
      && lines[5] == "STATUS: FRAGILE. 1 anomalies detected."
      && ReadRisk(lines[6]) == Some(50)
      && Findings(lines) == [FileNotFoundText]
  {
    assert Messages([FileNotFound]) == [Message(FileNotFound)] by {
      assert [FileNotFound][..0] == [];
    }
    OneAnomaly();
    FragileSummary([FileNotFoundText], timestamp);
  }

  lemma OneAnomaly()
    ensures StatusLine(1) == "STATUS: FRAGILE. 1 anomalies detected."
  {
    SmallDecimals();
  }

  /** The `__main__` block after it has written the sample file: scan it, then write the
      report. The result is the report text. */
  method RunDemonstration(timestamp: string) returns (report: string)
    ensures report == Render(ReportLines(SampleFindings, timestamp))
  {
    var findings := ScanData(Found(SampleRows()), SampleParse);
    SampleMessages();
    report := GenerateReport(findings, timestamp);
  }

  lemma Pair<T>(a: seq<T>, b: T)
    ensures |a| == 0 ==> a + [b] == [b]
    ensures |a| == 1 ==> a + [b] == [a[0], b]
    ensures |a| == 2 ==> a + [b] == [a[0], a[1], b]
  {
  }

  lemma TakeAll<T>(s: seq<T>)
    ensures s[..|s|] == s
  {
  }
}

/** The row scanner of the observer agent (`scan_data` in micro_pilot/observer_agent.py).
    The CSV file is given as its already-split data rows; a file that cannot be
    found is the `NotFound` case of `DataFile`. */
module Scanner {
  import opened Optional
  import opened Text

  /** One data row as `csv.DictReader` yields it: (column, value) pairs in header order.
      The model assumes distinct column names. With a repeated name Python's dict keeps
      the last value and one entry per name, whereas `Lookup` takes the first pair and
      `Values` keeps every pair; such headers are not modelled. */
  type Row = seq<(string, string)>

  datatype DataFile = NotFound | Found(rows: seq<Row>)

  /** What `float(raw)` followed by `val < 0` decides about an `order_total` value.
      `NonNegative` is every parsed value that is not below zero (NaN and -0.0 included);
      `Negative` carries the text Python prints for the parsed value. */
  datatype Parsed = Invalid | NonNegative | Negative(shown: string)

  /** The kinds of issue the scanner reports; `Message` renders each one as the agent writes it. */
  datatype Issue =
    | FileNotFound
    | Duplicate(row: nat)
    | Missing(row: nat, column: string)
    | InvalidFormat(row: nat, raw: string)
    | NegativeValue(row: nat, shown: string)

  const CriticalColumns: seq<string> := ["email", "order_total", "shipping_address"]
  const OrderTotal: string := "order_total"
  const FileNotFoundText: string := "CRITICAL ERROR: Data file not found."

  /** Row number in the file for the data row at 0-based `index`: line 1 is the header. */
  function RowId(index: nat): nat {
    index + 2
  }

  /** The text after "Row <n>" of an issue that belongs to a row. */
  function Detail(x: Issue): (d: string)
    requires !x.FileNotFound?
    ensures |d| > 2 && d[0] == ':'
  {
    match x
    case Duplicate(_) => ": Duplicate Record detected."
    case Missing(_, column) => ": Critical Data Missing in '" + column + "'."
    case InvalidFormat(_, raw) => ": Invalid Format in 'order_total' ('" + raw + "')."
    case NegativeValue(_, shown) => ": Negative Value in 'order_total' ($" + shown + ")."
  }

  /** The text the agent appends for an issue; only a missing file gives the critical error. */
  function Message(x: Issue): (m: string)
    ensures m == FileNotFoundText <==> x.FileNotFound?
  {
    assert FileNotFoundText[0] == 'C';
    if x.FileNotFound? then FileNotFoundText else "Row " + Decimal(x.row) + Detail(x)
  }

  function Messages(xs: seq<Issue>): seq<string> {
    if xs == [] then [] else Messages(xs[..|xs| - 1]) + [Message(xs[|xs| - 1])]
  }

  /** `row[column]` when `column in row`. */
  function Lookup(row: Row, column: string): (r: Option<string>)
    ensures r.None? <==> forall k :: 0 <= k < |row| ==> row[k].0 != column
    ensures r.Some? ==> exists k :: 0 <= k < |row| && row[k] == (column, r.value)
  {
    if row == [] then None
    else if row[0].0 == column then Some(row[0].1)
    else
      var r := Lookup(row[1..], column);
      assert r.Some? ==> exists k :: 0 <= k < |row[1..]| && row[1..][k] == (column, r.value);
      r
  }

  /** `tuple(row.values())`. */
  function Values(row: Row): seq<string> {
    if row == [] then [] else Values(row[..|row| - 1]) + [row[|row| - 1].1]
  }

  /** The contents of `seen_rows` once the given rows have been scanned. */
  function SeenTuples(rows: seq<Row>): set<seq<string>> {
    set k | 0 <= k < |rows| :: Values(rows[k])
  }

  /** The row at `k` repeats the full value tuple of an earlier row. */
  predicate IsRepeat(rows: seq<Row>, k: nat)
    requires k < |rows|
  {
    exists j :: 0 <= j < k && Values(rows[j]) == Values(rows[k])
  }

  /** The column is present in the row and its value is whitespace only, which is
      when Python's `strip()` leaves it empty (the contract of `Strip`). */
  predicate BlankIn(row: Row, column: string) {
    Lookup(row, column).Some? && AllSpace(Lookup(row, column).value)
  }

  /** The missing-data issues of one row, for the columns checked in `cols` order. */
  function MissingIssues(row: Row, id: nat, cols: seq<string>): (r: seq<Issue>)
    ensures |r| <= |cols|
    ensures forall y :: y in r ==> y.Missing? && y.row == id
  {
    if cols == [] then []
    else
      var c := cols[|cols| - 1];
      var init := cols[..|cols| - 1];
      assert cols == init + [c];
      MissingIssues(row, id, init) + (if BlankIn(row, c) then [Missing(id, c)] else [])
  }

  /** A column gets a missing-data issue exactly when it is checked and blank in the row. */
  lemma {:induction false} MissingIssuesMembers(row: Row, id: nat, cols: seq<string>, c: string)
    ensures Missing(id, c) in MissingIssues(row, id, cols) <==> c in cols && BlankIn(row, c)
  {
    if cols != [] {
      var init := cols[..|cols| - 1];
      assert cols == init + [cols[|cols| - 1]];
      MissingIssuesMembers(row, id, init, c);
    }
  }

  lemma MissingIssuesSnoc(row: Row, id: nat, cols: seq<string>, j: nat)
    requires j < |cols|
    ensures MissingIssues(row, id, cols[..j + 1])
         == MissingIssues(row, id, cols[..j]) + (if BlankIn(row, cols[j]) then [Missing(id, cols[j])] else [])
  {
    assert cols[..j + 1][..j] == cols[..j];
  }

  /** The `order_total` issue of one row, if any. */
  function TotalIssues(row: Row, id: nat, parse: string -> Parsed): (r: seq<Issue>)
    ensures |r| <= 1
    ensures forall y :: y in r ==> (y.InvalidFormat? || y.NegativeValue?) && y.row == id
    ensures r == [] <==> Lookup(row, OrderTotal).None? || parse(Lookup(row, OrderTotal).value).NonNegative?
    ensures forall raw :: InvalidFormat(id, raw) in r <==> Lookup(row, OrderTotal) == Some(raw) && parse(raw).Invalid?
    ensures forall shown :: NegativeValue(id, shown) in r
                        <==> Lookup(row, OrderTotal).Some? && parse(Lookup(row, OrderTotal).value) == Negative(shown)
  {
    match Lookup(row, OrderTotal)
    case None => []
    case Some(raw) =>
      match parse(raw)
      case Invalid => [InvalidFormat(id, raw)]
      case Negative(shown) => [NegativeValue(id, shown)]
      case NonNegative => []
  }

  /** The duplicate issue of one row, if its value tuple is among those already seen. */
  function DuplicateIssues(row: Row, id: nat, seen: set<seq<string>>): seq<Issue> {
    if Values(row) in seen then [Duplicate(id)] else []
  }

  /** Everything reported for the row at 0-based `index`, given the tuples seen before it. */
  function RowIssues(row: Row, index: nat, seen: set<seq<string>>, parse: string -> Parsed): (r: seq<Issue>)
    ensures |r| <= 2 + |CriticalColumns|
    ensures forall y :: y in r ==> !y.FileNotFound? && y.row == RowId(index)
  {
    var id := RowId(index);
    DuplicateIssues(row, id, seen)
    + MissingIssues(row, id, CriticalColumns)
    + TotalIssues(row, id, parse)
  }

  /** The issues found in `rows`, in the order the agent appends them. */
  function ScanRows(rows: seq<Row>, parse: string -> Parsed): (r: seq<Issue>)
    ensures forall y :: y in r ==> !y.FileNotFound? && 2 <= y.row < |rows| + 2
  {
    if rows == [] then []
    else
      var k := |rows| - 1;
      ScanRows(rows[..k], parse) + RowIssues(rows[k], k, SeenTuples(rows[..k]), parse)
  }

  function Scan(file: DataFile, parse: string -> Parsed): seq<Issue> {
    match file
    case NotFound => [FileNotFound]
    case Found(rows) => ScanRows(rows, parse)
  }

  lemma {:induction false} MessagesAppend(a: seq<Issue>, b: seq<Issue>)
    ensures Messages(a + b) == Messages(a) + Messages(b)
  {
    if b == [] {
      assert a + b == a;
    } else {
      var n := |b| - 1;
      assert (a + b)[..|a + b| - 1] == a + b[..n];
      assert (a + b)[|a + b| - 1] == b[n];
      MessagesAppend(a, b[..n]);
      Assoc(Messages(a), Messages(b[..n]), [Message(b[n])]);
    }
  }

  lemma SeenTuplesSnoc(rows: seq<Row>, k: nat)
    requires k < |rows|
    ensures SeenTuples(rows[..k + 1]) == SeenTuples(rows[..k]) + {Values(rows[k])}
  {
    var prefix := rows[..k + 1];
    assert prefix[..k] == rows[..k];
    assert prefix[k] == rows[k];
    forall t | t in SeenTuples(prefix) ensures t in SeenTuples(rows[..k]) + {Values(rows[k])} {
      var j :| 0 <= j < k + 1 && t == Values(prefix[j]);
      if j < k { assert rows[..k][j] == prefix[j]; }
    }
    forall t | t in SeenTuples(rows[..k]) ensures t in SeenTuples(prefix) {
      var j :| 0 <= j < k && t == Values(rows[..k][j]);
      assert prefix[j] == rows[..k][j];
    }
  }

  lemma Assoc<T>(a: seq<T>, b: seq<T>, c: seq<T>)
    ensures a + b + c == a + (b + c)
  {
  }

  lemma ScanRowsSnoc(rows: seq<Row>, i: nat, parse: string -> Parsed)
    requires i < |rows|
    ensures ScanRows(rows[..i + 1], parse) == ScanRows(rows[..i], parse) + RowIssues(rows[i], i, SeenTuples(rows[..i]), parse)
  {
    assert rows[..i + 1][..i] == rows[..i];
  }

  /** The texts of one row's issues, in the three groups the agent appends them. */
  lemma RowMessages(row: Row, index: nat, seen: set<seq<string>>, parse: string -> Parsed)
    ensures Messages(RowIssues(row, index, seen, parse))
         == Messages(DuplicateIssues(row, RowId(index), seen))
            + Messages(MissingIssues(row, RowId(index), CriticalColumns))
            + Messages(TotalIssues(row, RowId(index), parse))
  {
    var id := RowId(index);
    var duplicate := DuplicateIssues(row, id, seen);
    MessagesAppend(duplicate, MissingIssues(row, id, CriticalColumns));
    MessagesAppend(duplicate + MissingIssues(row, id, CriticalColumns), TotalIssues(row, id, parse));
  }

  /** The duplicate check of `scan_data` for one row; also hands back the row's value tuple. */
  method CheckDuplicate(row: Row, rowId: nat, seen: set<seq<string>>) returns (texts: seq<string>, tuple: seq<string>)
    ensures tuple == Values(row)
    ensures texts == Messages(DuplicateIssues(row, rowId, seen))
  {
    tuple := Values(row);
    texts := [];
    if tuple in seen {
      texts := [Message(Duplicate(rowId))];
    }
  }

  /** The `for col in CRITICAL_COLUMNS` loop of `scan_data` for one row. */
  method CheckCriticalColumns(row: Row, rowId: nat) returns (texts: seq<string>)
    ensures texts == Messages(MissingIssues(row, rowId, CriticalColumns))
  {
    texts := [];
    var j := 0;
    while j < |CriticalColumns|
      invariant j <= |CriticalColumns|
      invariant texts == Messages(MissingIssues(row, rowId, CriticalColumns[..j]))
    {
      MissingIssuesSnoc(row, rowId, CriticalColumns, j);
      ghost var missing := MissingIssues(row, rowId, CriticalColumns[..j]);
      var column := CriticalColumns[j];
      var value := Lookup(row, column);
      assert BlankIn(row, column) <==> value.Some? && Strip(value.value) == "";
      if value.Some? && Strip(value.value) == "" {
        texts := texts + [Message(Missing(rowId, column))];
        MessagesAppend(missing, [Missing(rowId, column)]);
      }
      j := j + 1;
    }
    assert CriticalColumns[..j] == CriticalColumns;
  }

  /** The `order_total` check of `scan_data` for one row. */
  method CheckOrderTotal(row: Row, rowId: nat, parse: string -> Parsed) returns (texts: seq<string>)
    ensures texts == Messages(TotalIssues(row, rowId, parse))
  {
    texts := [];
    var total := Lookup(row, OrderTotal);
    if total.Some? {
      match parse(total.value)
      case Invalid =>
        texts := [Message(InvalidFormat(rowId, total.value))];
      case Negative(shown) =>
        texts := [Message(NegativeValue(rowId, shown))];
      case NonNegative =>
    }
  }

  /** The body of the row loop of `scan_data`: the three checks on one row, in order. */
  method ScanRow(row: Row, index: nat, seen: set<seq<string>>, parse: string -> Parsed)
    returns (texts: seq<string>, tuple: seq<string>)
    ensures tuple == Values(row)
    ensures texts == Messages(RowIssues(row, index, seen, parse))
  {
    var rowId := index + 2;
    var duplicate;
    duplicate, tuple := CheckDuplicate(row, rowId, seen);
    var missing := CheckCriticalColumns(row, rowId);
    var total := CheckOrderTotal(row, rowId, parse);
    texts := duplicate + missing + total;
    RowMessages(row, index, seen, parse);
  }

  /** The row loop of `scan_data`: one pass over the rows, appending issue texts and growing `seen_rows`. */
  method ScanAllRows(rows: seq<Row>, parse: string -> Parsed) returns (issues: seq<string>)
    ensures issues == Messages(ScanRows(rows, parse))
  {
    issues := [];
    var seen: set<seq<string>> := {};
    var i := 0;
    while i < |rows|
      invariant i <= |rows|
      invariant seen == SeenTuples(rows[..i])
      invariant issues == Messages(ScanRows(rows[..i], parse))
    {
      var texts, tuple := ScanRow(rows[i], i, seen, parse);
      ScanRowsSnoc(rows, i, parse);
      SeenTuplesSnoc(rows, i);
      MessagesAppend(ScanRows(rows[..i], parse), RowIssues(rows[i], i, seen, parse));
      issues := issues + texts;
      seen := seen + {tuple};
      i := i + 1;
    }
    assert rows[..i] == rows;
  }

  /** `scan_data`: the critical error when the file is missing, otherwise the row loop. */
  method ScanData(file: DataFile, parse: string -> Parsed) returns (issues: seq<string>)
    ensures issues == Messages(Scan(file, parse))
  {
    match file
    case NotFound =>
      issues := [FileNotFoundText];
    case Found(rows) =>
      issues := ScanAllRows(rows, parse);
  }
}

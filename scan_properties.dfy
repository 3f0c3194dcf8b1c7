/** What the scanner promises about the issues it reports: their row labels, their
    order, when each kind of issue is reported, and how often. */
module ScanProperties {
  import opened Optional
  import opened Text
  import opened Scanner

  /** Position of `c` in `cols`, or `|cols|` when it does not occur. */
  function IndexIn(cols: seq<string>, c: string): (r: nat)
    ensures r <= |cols|
    ensures r < |cols| ==> cols[r] == c
  {
    if cols == [] then 0 else if cols[0] == c then 0 else 1 + IndexIn(cols[1..], c)
  }

  predicate Distinct(cols: seq<string>) {
    forall p, q :: 0 <= p < q < |cols| ==> cols[p] != cols[q]
  }

  lemma {:induction false} IndexInDistinct(cols: seq<string>, m: nat)
    requires Distinct(cols) && m < |cols|
    ensures IndexIn(cols, cols[m]) == m
  {
    if m > 0 {
      assert cols[0] != cols[m];
      assert cols[1..][m - 1] == cols[m];
      IndexInDistinct(cols[1..], m - 1);
    }
  }

  /** Where an issue stands among the checks made on one row: the duplicate check first,
      then one step per critical column in list order, then the `order_total` check. */
  function Rank(x: Issue): (r: nat)
    ensures r <= 1 + |CriticalColumns|
  {
    match x
    case FileNotFound => 0
    case Duplicate(_) => 0
    case Missing(_, column) => 1 + IndexIn(CriticalColumns, column)
    case InvalidFormat(_, _) => 1 + |CriticalColumns|
    case NegativeValue(_, _) => 1 + |CriticalColumns|
  }

  /** Where an issue stands in the whole scan: by row, then by check within the row. */
  function Position(x: Issue): int {
    if x.FileNotFound? then 0 else x.row * (2 + |CriticalColumns|) + Rank(x)
  }

  /** `x` is reported before `y`: an earlier row, or the same row and an earlier check. */
  predicate Precedes(x: Issue, y: Issue) {
    && !x.FileNotFound? && !y.FileNotFound?
    && (x.row < y.row || (x.row == y.row && Rank(x) < Rank(y)))
  }

  /** The issues stand in strictly increasing position. */
  predicate Ordered(s: seq<Issue>) {
    forall a, b :: 0 <= a < b < |s| ==> Position(s[a]) < Position(s[b])
  }

  /** Two ordered runs separated by `bound` join into one. */
  lemma OrderedConcat(s: seq<Issue>, t: seq<Issue>, bound: int)
    requires Ordered(s) && Ordered(t)
    requires forall x :: x in s ==> Position(x) < bound
    requires forall y :: y in t ==> bound <= Position(y)
    ensures Ordered(s + t)
  {
    forall a, b | 0 <= a < b < |s + t| ensures Position((s + t)[a]) < Position((s + t)[b]) {
      if a < |s| && b >= |s| {
        assert (s + t)[a] == s[a] && s[a] in s;
        assert (s + t)[b] == t[b - |s|] && t[b - |s|] in t;
      }
    }
  }

  /** The missing-data issues of a row follow the order of the column list. */
  lemma {:induction false} MissingInColumnOrder(row: Row, id: nat, j: nat)
    requires j <= |CriticalColumns|
    ensures var r := MissingIssues(row, id, CriticalColumns[..j]);
      Ordered(r) && forall y :: y in r ==> id * (2 + |CriticalColumns|) < Position(y) <= id * (2 + |CriticalColumns|) + j
  {
    if j > 0 {
      var base := id * (2 + |CriticalColumns|);
      var c := CriticalColumns[j - 1];
      var r0 := MissingIssues(row, id, CriticalColumns[..j - 1]);
      var e := if BlankIn(row, c) then [Missing(id, c)] else [];
      var r := MissingIssues(row, id, CriticalColumns[..j]);
      MissingInColumnOrder(row, id, j - 1);
      MissingIssuesSnoc(row, id, CriticalColumns, j - 1);
      assert Position(Missing(id, c)) == base + j by {
        assert Distinct(CriticalColumns);
        IndexInDistinct(CriticalColumns, j - 1);
      }
      forall y | y in e ensures base + j <= Position(y) {
      }
      OrderedConcat(r0, e, base + j);
      forall y | y in r ensures base < Position(y) <= base + j {
        assert y in r0 || y in e;
      }
    }
  }

  /** Within one row: the duplicate issue, then the missing columns in list order, then
      `order_total`; all of them after the issues of earlier rows and before those of later ones. */
  lemma RowIssuesInOrder(row: Row, index: nat, seen: set<seq<string>>, parse: string -> Parsed)
    ensures var r := RowIssues(row, index, seen, parse);
      && Ordered(r)
      && forall y :: y in r ==> RowId(index) * (2 + |CriticalColumns|) <= Position(y) < (RowId(index) + 1) * (2 + |CriticalColumns|)
  {
    var id := RowId(index);
    var d := DuplicateIssues(row, id, seen);
    var m := MissingIssues(row, id, CriticalColumns);
    var t := TotalIssues(row, id, parse);
    assert CriticalColumns[..|CriticalColumns|] == CriticalColumns;
    MissingInColumnOrder(row, id, |CriticalColumns|);
    OrderedConcat(d, m, id * (2 + |CriticalColumns|) + 1);
    OrderedConcat(d + m, t, id * (2 + |CriticalColumns|) + 1 + |CriticalColumns|);
  }

  lemma {:induction false} ScanOrdered(rows: seq<Row>, parse: string -> Parsed)
    ensures Ordered(ScanRows(rows, parse))
  {
    if rows != [] {
      var n := |rows| - 1;
      ScanRowsSnoc(rows, n, parse);
      assert rows[..n + 1] == rows;
      ScanOrdered(rows[..n], parse);
      RowIssuesInOrder(rows[n], n, SeenTuples(rows[..n]), parse);
      OrderedConcat(ScanRows(rows[..n], parse), RowIssues(rows[n], n, SeenTuples(rows[..n]), parse),
                    RowId(n) * (2 + |CriticalColumns|));
    }
  }

  /** Issues come out ordered by row and, within a row, by check; so none is reported twice. */
  lemma ScanInOrder(rows: seq<Row>, parse: string -> Parsed)
    ensures var s := ScanRows(rows, parse);
      forall a, b :: 0 <= a < b < |s| ==> Precedes(s[a], s[b])
  {
    ScanOrdered(rows, parse);
  }

  lemma CountLeft<T>(a: seq<T>, b: seq<T>, x: T)
    requires x !in b
    ensures multiset(a + b)[x] == multiset(a)[x]
  {
  }

  lemma CountRight<T>(a: seq<T>, b: seq<T>, x: T)
    requires x !in a
    ensures multiset(a + b)[x] == multiset(b)[x]
  {
  }

  /** The issues the scan reports with row label `RowId(k)` are exactly those of the row at `k`. */
  lemma {:induction false} ScanRowsAt(rows: seq<Row>, parse: string -> Parsed, k: nat, x: Issue)
    requires k < |rows| && !x.FileNotFound? && x.row == RowId(k)
    ensures multiset(ScanRows(rows, parse))[x]
         == multiset(RowIssues(rows[k], k, SeenTuples(rows[..k]), parse))[x]
  {
    var n := |rows| - 1;
    var prefix := rows[..n];
    var earlier := ScanRows(prefix, parse);
    var last := RowIssues(rows[n], n, SeenTuples(prefix), parse);
    ScanRowsSnoc(rows, n, parse);
    assert rows[..n + 1] == rows;
    if k == n {
      CountRight(earlier, last, x);
    } else {
      assert prefix[k] == rows[k] && prefix[..k] == rows[..k];
      ScanRowsAt(prefix, parse, k, x);
      CountLeft(earlier, last, x);
    }
  }

  lemma SeenIffRepeat(rows: seq<Row>, k: nat)
    requires k < |rows|
    ensures Values(rows[k]) in SeenTuples(rows[..k]) <==> IsRepeat(rows, k)
  {
    if IsRepeat(rows, k) {
      var j :| 0 <= j < k && Values(rows[j]) == Values(rows[k]);
      assert rows[..k][j] == rows[j];
    }
  }

  /** `seen_rows` is never pruned: the tuples seen after `i` rows are still seen after `j >= i`. */
  lemma SeenTuplesGrow(rows: seq<Row>, i: nat, j: nat)
    requires i <= j <= |rows|
    ensures SeenTuples(rows[..i]) <= SeenTuples(rows[..j])
  {
    forall t | t in SeenTuples(rows[..i]) ensures t in SeenTuples(rows[..j]) {
      var k :| 0 <= k < i && t == Values(rows[..i][k]);
      assert rows[..i][k] == rows[..j][k];
    }
  }

  lemma CountMiddle<T>(d: seq<T>, m: seq<T>, t: seq<T>, x: T)
    requires x !in d && x !in t
    ensures multiset(d + m + t)[x] == multiset(m)[x]
  {
  }

  /** Each group of checks produces only its own kind of issue. */
  lemma GroupKinds(row: Row, id: nat, seen: set<seq<string>>, parse: string -> Parsed, x: Issue)
    ensures x in DuplicateIssues(row, id, seen) ==> x.Duplicate?
    ensures x in MissingIssues(row, id, CriticalColumns) ==> x.Missing?
    ensures x in TotalIssues(row, id, parse) ==> x.InvalidFormat? || x.NegativeValue?
  {
  }

  /** Issues labelled with the row at `k` come from that row's own checks: its duplicate
      check, its critical-column checks, its `order_total` check. */
  lemma DuplicateAt(rows: seq<Row>, parse: string -> Parsed, k: nat)
    requires k < |rows|
    ensures multiset(ScanRows(rows, parse))[Duplicate(RowId(k))]
         == multiset(DuplicateIssues(rows[k], RowId(k), SeenTuples(rows[..k])))[Duplicate(RowId(k))]
  {
    var x := Duplicate(RowId(k));
    var seen := SeenTuples(rows[..k]);
    ScanRowsAt(rows, parse, k, x);
    var d := DuplicateIssues(rows[k], x.row, seen);
    var m := MissingIssues(rows[k], x.row, CriticalColumns);
    var t := TotalIssues(rows[k], x.row, parse);
    GroupKinds(rows[k], x.row, seen, parse, x);
    CountMiddle([], d, m + t, x);
    Assoc(d, m, t);
    assert [] + d == d;
  }

  lemma MissingAt(rows: seq<Row>, parse: string -> Parsed, k: nat, column: string)
    requires k < |rows|
    ensures Missing(RowId(k), column) in ScanRows(rows, parse)
        <==> Missing(RowId(k), column) in MissingIssues(rows[k], RowId(k), CriticalColumns)
  {
    var x := Missing(RowId(k), column);
    var seen := SeenTuples(rows[..k]);
    ScanRowsAt(rows, parse, k, x);
    GroupKinds(rows[k], x.row, seen, parse, x);
    CountMiddle(DuplicateIssues(rows[k], x.row, seen), MissingIssues(rows[k], x.row, CriticalColumns),
                TotalIssues(rows[k], x.row, parse), x);
  }

  lemma TotalAt(rows: seq<Row>, parse: string -> Parsed, k: nat, x: Issue)
    requires k < |rows| && (x.InvalidFormat? || x.NegativeValue?) && x.row == RowId(k)
    ensures x in ScanRows(rows, parse) <==> x in TotalIssues(rows[k], x.row, parse)
  {
    var seen := SeenTuples(rows[..k]);
    ScanRowsAt(rows, parse, k, x);
    var d := DuplicateIssues(rows[k], x.row, seen);
    var m := MissingIssues(rows[k], x.row, CriticalColumns);
    var t := TotalIssues(rows[k], x.row, parse);
    GroupKinds(rows[k], x.row, seen, parse, x);
    CountMiddle(d + m, t, [], x);
    assert d + m + t + [] == d + m + t;
  }

  /** A row is reported as a duplicate exactly once if its value tuple occurred in an
      earlier row, and not at all otherwise; in particular never on its first occurrence. */
  lemma DuplicateFlaggedOnce(rows: seq<Row>, parse: string -> Parsed, k: nat)
    requires k < |rows|
    ensures multiset(ScanRows(rows, parse))[Duplicate(RowId(k))] == if IsRepeat(rows, k) then 1 else 0
  {
    DuplicateAt(rows, parse, k);
    SeenIffRepeat(rows, k);
  }

  /** A critical column gives a missing-data issue exactly when it is present in the row
      and blank; an absent column gives none. */
  lemma MissingReported(rows: seq<Row>, parse: string -> Parsed, k: nat, column: string)
    requires k < |rows|
    ensures Missing(RowId(k), column) in ScanRows(rows, parse)
        <==> column in CriticalColumns && BlankIn(rows[k], column)
  {
    MissingAt(rows, parse, k, column);
    MissingIssuesMembers(rows[k], RowId(k), CriticalColumns, column);
  }

  /** An unparseable `order_total` gives an invalid-format issue carrying the raw text. */
  lemma InvalidFormatReported(rows: seq<Row>, parse: string -> Parsed, k: nat, raw: string)
    requires k < |rows|
    ensures InvalidFormat(RowId(k), raw) in ScanRows(rows, parse)
        <==> Lookup(rows[k], OrderTotal) == Some(raw) && parse(raw).Invalid?
  {
    TotalAt(rows, parse, k, InvalidFormat(RowId(k), raw));
  }

  /** A parsed `order_total` below zero gives a negative-value issue carrying the parsed value. */
  lemma NegativeValueReported(rows: seq<Row>, parse: string -> Parsed, k: nat, shown: string)
    requires k < |rows|
    ensures NegativeValue(RowId(k), shown) in ScanRows(rows, parse)
        <==> Lookup(rows[k], OrderTotal).Some? && parse(Lookup(rows[k], OrderTotal).value) == Negative(shown)
  {
    TotalAt(rows, parse, k, NegativeValue(RowId(k), shown));
  }

  /** The critical-error issue appears exactly when the file is missing, and then alone. */
  lemma CriticalErrorOnlyWhenNotFound(file: DataFile, parse: string -> Parsed)
    ensures FileNotFound in Scan(file, parse) <==> file.NotFound?
    ensures file.NotFound? ==> Messages(Scan(file, parse)) == [FileNotFoundText]
  {
    if file.NotFound? {
      assert Messages([FileNotFound]) == Messages([]) + [Message(FileNotFound)];
    }
  }

  /** Row `k` raises no anomaly at all. */
  predicate RowClean(rows: seq<Row>, parse: string -> Parsed, k: nat) {
    && k < |rows|
    && !IsRepeat(rows, k)
    && (forall c :: c in CriticalColumns ==> !BlankIn(rows[k], c))
    && (Lookup(rows[k], OrderTotal).None? || parse(Lookup(rows[k], OrderTotal).value).NonNegative?)
  }

  /** One row's checks report nothing exactly when its tuple is new, no critical column
      is blank and `order_total` is absent or parses to a non-negative value. */
  lemma RowIssuesEmpty(row: Row, index: nat, seen: set<seq<string>>, parse: string -> Parsed)
    ensures RowIssues(row, index, seen, parse) == []
        <==> && Values(row) !in seen
             && (forall c :: c in CriticalColumns ==> !BlankIn(row, c))
             && (Lookup(row, OrderTotal).None? || parse(Lookup(row, OrderTotal).value).NonNegative?)
  {
    var id := RowId(index);
    var m := MissingIssues(row, id, CriticalColumns);
    forall c ensures Missing(id, c) in m <==> c in CriticalColumns && BlankIn(row, c) {
      MissingIssuesMembers(row, id, CriticalColumns, c);
    }
    if m != [] {
      assert m[0] in m && m[0] == Missing(id, m[0].column);
    }
  }

  /** Whether row `k` is clean does not depend on the rows after it. */
  lemma RowCleanPrefix(rows: seq<Row>, parse: string -> Parsed, k: nat, n: nat)
    requires k < n <= |rows|
    ensures RowClean(rows[..n], parse, k) <==> RowClean(rows, parse, k)
  {
    assert rows[..n][k] == rows[k];
    assert forall j :: 0 <= j < k ==> rows[..n][j] == rows[j];
  }

  /** The scan is empty, and the report HEALTHY, exactly when no row raises an anomaly. */
  lemma {:induction false} EmptyIffClean(rows: seq<Row>, parse: string -> Parsed)
    ensures ScanRows(rows, parse) == [] <==> forall k: nat :: k < |rows| ==> RowClean(rows, parse, k)
  {
    if rows != [] {
      var n := |rows| - 1;
      var prefix := rows[..n];
      var last := RowIssues(rows[n], n, SeenTuples(prefix), parse);
      ScanRowsSnoc(rows, n, parse);
      assert rows[..n + 1] == rows;
      EmptyIffClean(prefix, parse);
      SeenIffRepeat(rows, n);
      RowIssuesEmpty(rows[n], n, SeenTuples(prefix), parse);
      assert last == [] <==> RowClean(rows, parse, n);
      assert ScanRows(rows, parse) == [] <==> ScanRows(prefix, parse) == [] && last == [];
      if ScanRows(rows, parse) == [] {
        forall k: nat | k < |rows| ensures RowClean(rows, parse, k) {
          if k < n {
            assert RowClean(prefix, parse, k);
            RowCleanPrefix(rows, parse, k, n);
          } else {
            assert k == n && last == [];
          }
        }
      } else if ScanRows(prefix, parse) != [] {
        var k: nat :| k < n && !RowClean(prefix, parse, k);
        RowCleanPrefix(rows, parse, k, n);
      }
    }
  }

  lemma SamePrefix<T>(p: seq<T>, a: seq<T>, b: seq<T>)
    requires p + a == p + b
    ensures a == b
  {
    assert a == (p + a)[|p|..];
  }

  lemma SameInfix<T>(p: seq<T>, a: seq<T>, b: seq<T>, q: seq<T>)
    requires p + a + q == p + b + q
    ensures a == b
  {
    assert |a| == |b|;
    assert a == (p + a + q)[|p|..|p| + |a|];
    assert b == (p + b + q)[|p|..|p| + |b|];
  }

  lemma DetailInjective(x: Issue, y: Issue)
    requires !x.FileNotFound? && !y.FileNotFound? && Detail(x) == Detail(y)
    ensures x.row == y.row ==> x == y
  {
    assert Detail(x)[2] == Detail(y)[2];
    match x
    case Duplicate(_) =>
    case Missing(_, c) =>
      SameInfix(": Critical Data Missing in '", c, y.column, "'.");
    case InvalidFormat(_, raw) =>
      SameInfix(": Invalid Format in 'order_total' ('", raw, y.raw, "').");
    case NegativeValue(_, shown) =>
      SameInfix(": Negative Value in 'order_total' ($", shown, y.shown, ").");
  }

  /** Distinct issues are reported with distinct texts, so the texts determine the issues. */
  lemma MessageInjective(x: Issue, y: Issue)
    requires Message(x) == Message(y)
    ensures x == y
  {
    if x.FileNotFound? || y.FileNotFound? {
      assert Message(x)[0] == Message(y)[0];
    } else {
      var dx, dy := Detail(x), Detail(y);
      var tx, ty := Decimal(x.row) + dx, Decimal(y.row) + dy;
      Assoc("Row ", Decimal(x.row), dx);
      Assoc("Row ", Decimal(y.row), dy);
      SamePrefix("Row ", tx, ty);
      DigitsThenNonDigit(Decimal(x.row), dx, Decimal(y.row), dy);
      DecimalInjective(x.row, y.row);
      DetailInjective(x, y);
    }
  }

  /** Under an injective map, an image occurs as often as the element it comes from. */
  lemma {:induction false} CountUnderInjective<A, B>(xs: seq<A>, ys: seq<B>, f: A -> B, x: A)
    requires |ys| == |xs| && forall k :: 0 <= k < |xs| ==> ys[k] == f(xs[k])
    requires forall a, b :: f(a) == f(b) ==> a == b
    ensures multiset(ys)[f(x)] == multiset(xs)[x]
  {
    if xs != [] {
      var n := |xs| - 1;
      CountUnderInjective(xs[..n], ys[..n], f, x);
      assert xs == xs[..n] + [xs[n]];
      assert ys == ys[..n] + [ys[n]];
    }
  }

  lemma SnocPointwise<A, B>(xs: seq<A>, init: seq<B>, f: A -> B)
    requires xs != [] && |init| == |xs| - 1
    requires forall k :: 0 <= k < |init| ==> init[k] == f(xs[..|xs| - 1][k])
    ensures forall k :: 0 <= k < |xs| ==> (init + [f(xs[|xs| - 1])])[k] == f(xs[k])
  {
  }

  lemma {:induction false} MessagesPointwise(xs: seq<Issue>)
    ensures |Messages(xs)| == |xs|
    ensures forall k :: 0 <= k < |xs| ==> Messages(xs)[k] == Message(xs[k])
  {
    if xs != [] {
      var n := |xs| - 1;
      MessagesPointwise(xs[..n]);
      SnocPointwise(xs, Messages(xs[..n]), Message);
    }
  }

  /** Each issue's text occurs in the agent's output as often as the issue itself. */
  lemma MessageCount(xs: seq<Issue>, x: Issue)
    ensures multiset(Messages(xs))[Message(x)] == multiset(xs)[x]
  {
    forall a, b | Message(a) == Message(b) ensures a == b {
      MessageInjective(a, b);
    }
    MessagesPointwise(xs);
    CountUnderInjective(xs, Messages(xs), Message, x);
  }
}

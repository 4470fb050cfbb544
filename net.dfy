/** `_monthly_net_cashflow`: per calendar month of the rows whose `Date`
    parses, income minus expense minus transfer-out, months in sorted order. */
module NetCashflow {
  import opened Collections
  import opened Strings
  import opened Dates
  import opened Ledger
  import opened Tallies

  /** A row whose `Date` parses and whose type moves the net: "income",
      "expense" or "transfer-out". */
  predicate Counted(r: Row)
  {
    ParseDateYM(r).Some? && Kind(r) in {"income", "expense", "transfer-out"}
  }

  /** `f"{y}-{m:02d}"` for the year and month `_parse_date_ym` reads. */
  function RowKey(r: Row): string
    requires ParseDateYM(r).Some?
  {
    var ym := ParseDateYM(r).value;
    MonthKey(ym.0, ym.1)
  }

  /** What row `r` adds to the monthly totals: the amount for income, its
      negation for expense and transfer-out, nothing for an undated row or
      any other type. */
  function NetEntry(r: Row): Entry
  {
    if !ParseDateYM(r).Some? then Skip
    else
      var t := Kind(r);
      if t == "income" then Count(RowKey(r), Amount(r))
      else if t == "expense" || t == "transfer-out" then Count(RowKey(r), -Amount(r))
      else Skip
  }

  function NetEntries(rows: seq<Row>): seq<Entry>
  {
    EntriesOf(NetEntry, rows)
  }

  /** The reference result: the months that received an entry, sorted, each
      with its total. */
  function NetChart(rows: seq<Row>): Chart
  {
    var es := NetEntries(rows);
    var ks := Sort(Labels(es));
    Chart("Monthly Net Cash Flow", ks, Column(ks, es))
  }

  /** One turn of the loop of `_monthly_net_cashflow`: `continue` when the
      date does not parse, otherwise add or subtract the amount by type. */
  method AddNetRow(totals: Tally, r: Row) returns (next: Tally)
    ensures next == var e := NetEntry(r); if e.Count? then totals.Add(e.key, e.delta) else totals
  {
    next := totals;
    var ym := ParseDateYM(r);
    if ym.None? {
      return;
    }
    var key := MonthKey(ym.value.0, ym.value.1);
    var t := Kind(r);
    var amt := Amount(r);
    assert key == RowKey(r);
    if t == "income" {
      assert NetEntry(r) == Count(key, amt);
      next := totals.Add(key, amt);
    } else if t == "expense" || t == "transfer-out" {
      assert NetEntry(r) == Count(key, -amt);
      next := totals.Add(key, -amt);
    } else {
      assert NetEntry(r) == Skip;
    }
  }

  /** The loop of `_monthly_net_cashflow`: the totals filled from all rows. */
  method TallyNet(rows: seq<Row>) returns (totals: Tally)
    ensures totals.Counts(NetEntries(rows))
  {
    totals := Empty;
    EmptyCounts();
    for i := 0 to |rows|
      invariant totals.Counts(NetEntries(rows[..i]))
    {
      CountStep(totals, NetEntries(rows[..i]), NetEntry(rows[i]));
      EntriesOfPrefix(NetEntry, rows, i);
      totals := AddNetRow(totals, rows[i]);
    }
    assert rows[..|rows|] == rows;
  }

  /** `_monthly_net_cashflow(rows)` */
  method MonthlyNetCashflow(rows: seq<Row>) returns (chart: Chart)
    ensures chart == NetChart(rows)
  {
    var totals := TallyNet(rows);
    var labels, data := SortedItems(totals, NetEntries(rows));
    chart := Chart("Monthly Net Cash Flow", labels, data);
  }

  /** The sum of the amounts of the dated rows of month `key` whose type is
      `word`. */
  function KindSum(rows: seq<Row>, key: string, word: string): int
  {
    if rows == [] then 0
    else
      var r := rows[|rows| - 1];
      KindSum(rows[..|rows| - 1], key, word) + KindShare(r, key, word)
  }

  /** The amount of row `r` if its `Date` falls in month `key` and its type
      is `word`, else 0. */
  function KindShare(r: Row, key: string, word: string): int
  {
    if ParseDateYM(r).Some? && RowKey(r) == key && Kind(r) == word then Amount(r) else 0
  }

  /** A month's total is its income less its expenses less its transfers out. */
  lemma {:induction false} NetTotal(rows: seq<Row>, key: string)
    ensures Total(NetEntries(rows), key) ==
      KindSum(rows, key, "income") - KindSum(rows, key, "expense") - KindSum(rows, key, "transfer-out")
  {
    if rows != [] {
      var n := |rows| - 1;
      TotalOfLast(NetEntry, rows, key);
      NetTotal(rows[..n], key);
      NetEntryTotal(rows[n], key);
    }
  }

  /** One row's share of a month's total is its income share less its
      expense and transfer-out shares. */
  lemma NetEntryTotal(r: Row, key: string)
    ensures var e := NetEntry(r);
      (if e.Count? && e.key == key then e.delta else 0) ==
        KindShare(r, key, "income") - KindShare(r, key, "expense") - KindShare(r, key, "transfer-out")
  {
  }

  /** A month gets a bucket exactly when some dated row of an income,
      expense or transfer-out type falls in it. */
  lemma NetKeys(rows: seq<Row>, key: string)
    ensures key in Keys(NetEntries(rows)) <==>
      exists i :: 0 <= i < |rows| && Counted(rows[i]) && RowKey(rows[i]) == key
  {
    KeysOfEntries(NetEntry, rows, key);
    forall i | 0 <= i < |rows|
      ensures NetEntry(rows[i]).Count? && NetEntry(rows[i]).key == key <==> Counted(rows[i]) && RowKey(rows[i]) == key
    {
      NetEntryCounts(rows[i], key);
    }
  }

  lemma NetEntryCounts(r: Row, key: string)
    ensures NetEntry(r).Count? && NetEntry(r).key == key <==> Counted(r) && RowKey(r) == key
  {
  }

  /** Labels and data line up; the labels are strictly ascending, so each
      month appears once; a month is listed exactly when a dated income,
      expense or transfer-out row falls in it; and its value is that month's
      income less expenses less transfers out. */
  lemma NetChartMeaning(rows: seq<Row>)
    ensures var c := NetChart(rows);
      && |c.labels| == |c.data|
      && StrictlyAscending(c.labels)
      && (forall key :: key in c.labels <==>
            exists i :: 0 <= i < |rows| && Counted(rows[i]) && RowKey(rows[i]) == key)
      && (forall i :: 0 <= i < |c.labels| ==>
            c.data[i] == KindSum(rows, c.labels[i], "income") - KindSum(rows, c.labels[i], "expense")
                         - KindSum(rows, c.labels[i], "transfer-out"))
  {
    var es := NetEntries(rows);
    var c := NetChart(rows);
    forall key ensures key in c.labels <==>
      exists i :: 0 <= i < |rows| && Counted(rows[i]) && RowKey(rows[i]) == key
    {
      NetKeys(rows, key);
      assert key in c.labels <==> key in Elems(c.labels);
      assert key in Keys(es) <==> key in Elems(Keys(es));
    }
    forall i | 0 <= i < |c.labels| ensures c.data[i] ==
      KindSum(rows, c.labels[i], "income") - KindSum(rows, c.labels[i], "expense")
        - KindSum(rows, c.labels[i], "transfer-out")
    {
      NetTotal(rows, c.labels[i]);
    }
  }

  /** A row that is undated, or of a type other than income, expense and
      transfer-out, changes nothing wherever it stands. */
  lemma NetIgnoresRow(a: seq<Row>, r: Row, b: seq<Row>)
    requires !Counted(r)
    ensures NetChart(a + [r] + b) == NetChart(a + b)
  {
    EntriesOfSplit(NetEntry, a + [r], b);
    EntriesOfSplit(NetEntry, a, [r]);
    EntriesOfSplit(NetEntry, a, b);
    assert NetEntries([r]) == [Skip];
    var xs, ys := NetEntries(a), NetEntries(b);
    SkipInvisible(xs, ys);
    var ks := Sort(Labels(xs + ys));
    assert Column(ks, xs + [Skip] + ys) == Column(ks, xs + ys);
  }

  /** When every counted row has a four-digit year, every label has the
      `"YYYY-MM"` shape. */
  lemma NetLabelsShape(rows: seq<Row>)
    requires forall i :: 0 <= i < |rows| && Counted(rows[i]) ==> ParseDateYM(rows[i]).value.0 >= 1000
    ensures var ls := NetChart(rows).labels;
      forall i :: 0 <= i < |ls| ==> IsYearMonth(ls[i])
  {
    var ls := NetChart(rows).labels;
    NetChartMeaning(rows);
    forall i | 0 <= i < |ls| ensures IsYearMonth(ls[i]) {
      assert ls[i] in ls;
      var j :| 0 <= j < |rows| && Counted(rows[j]) && RowKey(rows[j]) == ls[i];
      var ym := ParseDateYM(rows[j]).value;
      assert ls[i] == MonthKey(ym.0, ym.1);
      MonthKeyShape(ym.0, ym.1);
    }
  }
}

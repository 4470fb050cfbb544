/** `_cashflow_series`: per calendar month, money in and money out, over the
    most recent `months` months that saw any flow, labelled by month name. */
module CashflowSeries {
  import opened Collections
  import opened Strings
  import opened Dates
  import opened Ledger
  import opened Tallies
  import opened NetCashflow

  /** The row's date: the loader's `__dt` when present, otherwise the
      `%d-%m-%Y` parse of the stripped `Date` text; `None` drops the row. */
  function SeriesDate(r: Row): Option<Date>
  {
    if r.parsed.Some? then r.parsed else ParseDMY(DateText(r))
  }

  /** A row's date is `d` exactly when the loader parsed it as `d`, or the
      loader parsed nothing and the stripped `Date` text is a rendering of
      `d`. */
  lemma SeriesDateMeaning(r: Row, d: Date)
    ensures SeriesDate(r) == Some(d) <==>
      r.parsed == Some(d) || (r.parsed.None? && DateText(r) in Renderings(d))
  {
    ParseExactly(DateText(r), d);
  }

  /** `f"{d.year}-{d.month:02d}"` */
  function SeriesKey(r: Row): string
    requires SeriesDate(r).Some?
  {
    var d := SeriesDate(r).value;
    MonthKey(d.year, d.month)
  }

  /** What row `r` adds to `inflow`: the amount of a dated income row. */
  function InflowEntry(r: Row): Entry
  {
    if SeriesDate(r).Some? && Kind(r) == "income" then Count(SeriesKey(r), Amount(r)) else Skip
  }

  /** What row `r` adds to `outflow`: the amount (not negated) of a dated
      expense or transfer-out row. */
  function OutflowEntry(r: Row): Entry
  {
    if SeriesDate(r).Some? && (Kind(r) == "expense" || Kind(r) == "transfer-out") then
      Count(SeriesKey(r), Amount(r))
    else Skip
  }

  function Inflows(rows: seq<Row>): seq<Entry>
  {
    EntriesOf(InflowEntry, rows)
  }

  function Outflows(rows: seq<Row>): seq<Entry>
  {
    EntriesOf(OutflowEntry, rows)
  }

  /** `sorted(set(inflow.keys()) | set(outflow.keys()))` */
  function BucketKeys(rows: seq<Row>): seq<string>
  {
    Sort(Labels(Inflows(rows)) + Labels(Outflows(rows)))
  }

  /** `if months and len(keys) > months: keys = keys[-months:]`, with
      Python's slicing: a positive `months` keeps the last `months` keys, zero
      keeps them all, and a negative one drops the first `-months`. */
  function Window(keys: seq<string>, months: int): (w: seq<string>)
    ensures |w| <= |keys| && w == keys[|keys| - |w|..]
    ensures months == 0 ==> w == keys
    ensures months > 0 ==> |w| == if |keys| > months then months else |keys|
    ensures months < 0 ==> |w| == if |keys| + months > 0 then |keys| + months else 0
  {
    if months != 0 && |keys| > months then
      if months > 0 then keys[|keys| - months..]
      else if -months <= |keys| then keys[-months..]
      else []
    else keys
  }

  /** `[datetime.strptime(k, "%Y-%m").strftime("%b") for k in keys]`;
      `None` is the `ValueError` raised by the first key `%Y` cannot read. */
  function MonthLabels(keys: seq<string>): (ls: Option<seq<string>>)
    ensures ls.Some? <==> forall i :: 0 <= i < |keys| ==> MonthLabel(keys[i]).Some?
    ensures ls.Some? ==> |ls.value| == |keys|
    ensures ls.Some? ==> forall i :: 0 <= i < |keys| ==> ls.value[i] == MonthLabel(keys[i]).value
  {
    if forall i :: 0 <= i < |keys| ==> MonthLabel(keys[i]).Some? then
      Some(seq(|keys|, i requires 0 <= i < |keys| => MonthLabel(keys[i]).value))
    else None
  }

  /** The dictionary `_cashflow_series` returns. */
  datatype Series = Series(labels: seq<string>, inflow: seq<int>, outflow: seq<int>)

  /** The reference result: the windowed bucket keys, each month's inflow and
      outflow (0 where a month saw only the other), or `None` for the
      `ValueError` of an unreadable key. */
  function SeriesOf(rows: seq<Row>, months: int): Option<Series>
  {
    var keys := Window(BucketKeys(rows), months);
    match MonthLabels(keys)
    case None => None
    case Some(labels) => Some(Series(labels, Column(keys, Inflows(rows)), Column(keys, Outflows(rows))))
  }

  /** One turn of the loop of `_cashflow_series`. */
  method AddSeriesRow(inflow: Tally, outflow: Tally, r: Row) returns (inflow': Tally, outflow': Tally)
    ensures inflow' == var e := InflowEntry(r); if e.Count? then inflow.Add(e.key, e.delta) else inflow
    ensures outflow' == var e := OutflowEntry(r); if e.Count? then outflow.Add(e.key, e.delta) else outflow
  {
    inflow', outflow' := inflow, outflow;
    var d := r.parsed;
    if d.None? {
      d := ParseDMY(DateText(r));
      if d.None? {
        return;
      }
    }
    var key := MonthKey(d.value.year, d.value.month);
    var t := Kind(r);
    var amt := Amount(r);
    if t == "income" {
      inflow' := inflow.Add(key, amt);
    } else if t == "expense" || t == "transfer-out" {
      outflow' := outflow.Add(key, amt);
    }
  }

  /** The loop of `_cashflow_series`: both tallies filled from all rows. */
  method TallyFlows(rows: seq<Row>) returns (inflow: Tally, outflow: Tally)
    ensures inflow.Counts(Inflows(rows)) && outflow.Counts(Outflows(rows))
  {
    inflow, outflow := Empty, Empty;
    EmptyCounts();
    for i := 0 to |rows|
      invariant inflow.Counts(Inflows(rows[..i]))
      invariant outflow.Counts(Outflows(rows[..i]))
    {
      CountStep(inflow, Inflows(rows[..i]), InflowEntry(rows[i]));
      CountStep(outflow, Outflows(rows[..i]), OutflowEntry(rows[i]));
      EntriesOfPrefix(InflowEntry, rows, i);
      EntriesOfPrefix(OutflowEntry, rows, i);
      inflow, outflow := AddSeriesRow(inflow, outflow, rows[i]);
    }
    assert rows[..|rows|] == rows;
  }

  /** `_cashflow_series(rows, months)` */
  method CashflowSeries(rows: seq<Row>, months: int := 6) returns (result: Option<Series>)
    ensures result == SeriesOf(rows, months)
  {
    var inflow, outflow := TallyFlows(rows);
    var keys := Sort(inflow.keys + outflow.keys);
    if months != 0 && |keys| > months {
      if months > 0 {
        keys := keys[|keys| - months..];
      } else if -months <= |keys| {
        keys := keys[-months..];
      } else {
        keys := [];
      }
    }
    assert keys == Window(BucketKeys(rows), months);
    var labels := MonthLabels(keys);
    if labels.None? {
      return None;
    }
    var inflowData := seq(|keys|, j requires 0 <= j < |keys| => inflow.Get(keys[j]));
    var outflowData := seq(|keys|, j requires 0 <= j < |keys| => outflow.Get(keys[j]));
    ReadColumn(inflow, Inflows(rows), keys);
    ReadColumn(outflow, Outflows(rows), keys);
    result := Some(Series(labels.value, inflowData, outflowData));
  }

  /** A row that reaches one of the two tallies: dated, and of type income,
      expense or transfer-out. */
  predicate Flows(r: Row)
  {
    SeriesDate(r).Some? && Kind(r) in {"income", "expense", "transfer-out"}
  }

  /** The sum of the amounts of the dated rows of month `key` whose type is
      `word`. */
  function FlowSum(rows: seq<Row>, key: string, word: string): int
  {
    if rows == [] then 0
    else
      var r := rows[|rows| - 1];
      FlowSum(rows[..|rows| - 1], key, word) + Share(r, key, word)
  }

  /** The amount of row `r` if it is a dated row of month `key` and type
      `word`, else 0. */
  function Share(r: Row, key: string, word: string): int
  {
    if SeriesDate(r).Some? && SeriesKey(r) == key && Kind(r) == word then Amount(r) else 0
  }

  /** A month's inflow is its income; its outflow is its expenses plus its
      transfers out. */
  lemma {:induction false} FlowTotals(rows: seq<Row>, key: string)
    ensures Total(Inflows(rows), key) == FlowSum(rows, key, "income")
    ensures Total(Outflows(rows), key) == FlowSum(rows, key, "expense") + FlowSum(rows, key, "transfer-out")
  {
    if rows != [] {
      var n := |rows| - 1;
      TotalOfLast(InflowEntry, rows, key);
      TotalOfLast(OutflowEntry, rows, key);
      FlowTotals(rows[..n], key);
      FlowEntryTotals(rows[n], key);
    }
  }

  /** One row's share of a month's inflow is its income share; of its
      outflow, its expense and transfer-out shares. */
  lemma FlowEntryTotals(r: Row, key: string)
    ensures var e := InflowEntry(r);
      (if e.Count? && e.key == key then e.delta else 0) == Share(r, key, "income")
    ensures var e := OutflowEntry(r);
      (if e.Count? && e.key == key then e.delta else 0) == Share(r, key, "expense") + Share(r, key, "transfer-out")
  {
  }

  /** The totals of any list of months are their income and their expenses
      plus transfers out. */
  lemma FlowColumns(rows: seq<Row>, keys: seq<string>)
    ensures forall i :: 0 <= i < |keys| ==> Column(keys, Inflows(rows))[i] == FlowSum(rows, keys[i], "income")
    ensures forall i :: 0 <= i < |keys| ==>
      Column(keys, Outflows(rows))[i] == FlowSum(rows, keys[i], "expense") + FlowSum(rows, keys[i], "transfer-out")
  {
    forall i | 0 <= i < |keys|
      ensures Total(Inflows(rows), keys[i]) == FlowSum(rows, keys[i], "income")
      ensures Total(Outflows(rows), keys[i]) == FlowSum(rows, keys[i], "expense") + FlowSum(rows, keys[i], "transfer-out")
    {
      FlowTotals(rows, keys[i]);
    }
  }

  lemma FlowEntries(r: Row, key: string)
    ensures (InflowEntry(r).Count? && InflowEntry(r).key == key) || (OutflowEntry(r).Count? && OutflowEntry(r).key == key)
      <==> Flows(r) && SeriesKey(r) == key
  {
  }

  /** A month is a bucket exactly when some dated income, expense or
      transfer-out row falls in it. */
  lemma BucketKeysMeaning(rows: seq<Row>, key: string)
    ensures key in BucketKeys(rows) <==>
      exists i :: 0 <= i < |rows| && Flows(rows[i]) && SeriesKey(rows[i]) == key
  {
    var a, b := Labels(Inflows(rows)), Labels(Outflows(rows));
    KeysOfEntries(InflowEntry, rows, key);
    KeysOfEntries(OutflowEntry, rows, key);
    forall i | 0 <= i < |rows|
      ensures (InflowEntry(rows[i]).Count? && InflowEntry(rows[i]).key == key)
           || (OutflowEntry(rows[i]).Count? && OutflowEntry(rows[i]).key == key)
           <==> Flows(rows[i]) && SeriesKey(rows[i]) == key
    {
      FlowEntries(rows[i], key);
    }
    assert key in BucketKeys(rows) <==> key in Elems(BucketKeys(rows));
    assert Elems(a + b) == Elems(a) + Elems(b);
    assert key in Keys(Inflows(rows)) <==> key in Elems(Keys(Inflows(rows)));
    assert key in Keys(Outflows(rows)) <==> key in Elems(Keys(Outflows(rows)));
  }

  /** A suffix of a strictly ascending list is strictly ascending. */
  lemma SuffixAscending(s: seq<string>, k: nat)
    requires StrictlyAscending(s) && k <= |s|
    ensures StrictlyAscending(s[k..])
  {
    forall i, j | 0 <= i < j < |s| - k ensures Less(s[k..][i], s[k..][j]) {
      assert s[k..][i] == s[k + i] && s[k..][j] == s[k + j];
    }
  }

  /** When the series is produced, its three lists line up with the window
      of bucket keys, which is sorted and is the last part of all bucket keys;
      each label is the month name its key reads back as; each inflow is that
      month's income and each outflow its expenses plus transfers out, 0 for
      a month that saw only the other direction. */
  lemma SeriesMeaning(rows: seq<Row>, months: int)
    requires SeriesOf(rows, months).Some?
    ensures var s, keys := SeriesOf(rows, months).value, Window(BucketKeys(rows), months);
      && |s.labels| == |keys| && |s.inflow| == |keys| && |s.outflow| == |keys|
      && StrictlyAscending(keys)
      && keys == BucketKeys(rows)[|BucketKeys(rows)| - |keys|..]
      && (forall i :: 0 <= i < |keys| ==> MonthLabel(keys[i]) == Some(s.labels[i]))
      && (forall i :: 0 <= i < |keys| ==> s.inflow[i] == FlowSum(rows, keys[i], "income"))
      && (forall i :: 0 <= i < |keys| ==>
            s.outflow[i] == FlowSum(rows, keys[i], "expense") + FlowSum(rows, keys[i], "transfer-out"))
  {
    var keys := Window(BucketKeys(rows), months);
    var labels := MonthLabels(keys).value;
    SeriesParts(rows, months);
    SeriesKeys(BucketKeys(rows), months, labels);
    FlowColumns(rows, keys);
  }

  /** A produced series is the labels of the window and the two columns. */
  lemma SeriesParts(rows: seq<Row>, months: int)
    requires SeriesOf(rows, months).Some?
    ensures var keys := Window(BucketKeys(rows), months);
      && MonthLabels(keys).Some?
      && SeriesOf(rows, months).value ==
           Series(MonthLabels(keys).value, Column(keys, Inflows(rows)), Column(keys, Outflows(rows)))
  {
  }

  /** The window of sorted keys is sorted, and its labels line up with it. */
  lemma SeriesKeys(all: seq<string>, months: int, labels: seq<string>)
    requires StrictlyAscending(all)
    requires MonthLabels(Window(all, months)) == Some(labels)
    ensures var keys := Window(all, months);
      && |labels| == |keys|
      && StrictlyAscending(keys)
      && keys == all[|all| - |keys|..]
      && (forall i :: 0 <= i < |keys| ==> MonthLabel(keys[i]) == Some(labels[i]))
  {
    SuffixAscending(all, |all| - |Window(all, months)|);
  }

  /** With no negative amount, no inflow and no outflow is negative. */
  lemma SeriesNonNegative(rows: seq<Row>, months: int)
    requires forall i :: 0 <= i < |rows| ==> Amount(rows[i]) >= 0
    requires SeriesOf(rows, months).Some?
    ensures var s := SeriesOf(rows, months).value;
      && (forall i :: 0 <= i < |s.inflow| ==> s.inflow[i] >= 0)
      && (forall i :: 0 <= i < |s.outflow| ==> s.outflow[i] >= 0)
  {
    var keys := Window(BucketKeys(rows), months);
    SeriesParts(rows, months);
    var ins, outs := Inflows(rows), Outflows(rows);
    forall i | 0 <= i < |rows|
      ensures ins[i].Count? ==> ins[i].delta >= 0
      ensures outs[i].Count? ==> outs[i].delta >= 0
    {
      FlowAmounts(rows[i]);
    }
    ColumnNonNegative(keys, ins);
    ColumnNonNegative(keys, outs);
  }

  /** Both tallies receive the row's own amount, not negated. */
  lemma FlowAmounts(r: Row)
    ensures InflowEntry(r).Count? ==> InflowEntry(r).delta == Amount(r)
    ensures OutflowEntry(r).Count? ==> OutflowEntry(r).delta == Amount(r)
  {
  }

  /** When every dated row has a four-digit year the series is produced. */
  lemma SeriesSucceeds(rows: seq<Row>, months: int)
    requires forall i :: 0 <= i < |rows| && SeriesDate(rows[i]).Some? ==> SeriesDate(rows[i]).value.year >= 1000
    ensures SeriesOf(rows, months).Some?
  {
    var keys := Window(BucketKeys(rows), months);
    var all := BucketKeys(rows);
    forall i | 0 <= i < |keys| ensures MonthLabel(keys[i]).Some? {
      var k := keys[i];
      assert k == all[|all| - |keys| + i];
      BucketKeysMeaning(rows, k);
      var j :| 0 <= j < |rows| && Flows(rows[j]) && SeriesKey(rows[j]) == k;
      var d := SeriesDate(rows[j]).value;
      MonthLabelOfKey(d.year, d.month);
    }
  }

  /** The label of a bucket is the abbreviated name of its month. */
  lemma SeriesLabel(rows: seq<Row>, months: int, i: nat, j: nat)
    requires SeriesOf(rows, months).Some?
    requires i < |Window(BucketKeys(rows), months)| && j < |rows|
    requires Flows(rows[j]) && SeriesKey(rows[j]) == Window(BucketKeys(rows), months)[i]
    ensures SeriesOf(rows, months).value.labels[i] == MonthAbbrev(SeriesDate(rows[j]).value.month)
  {
    var d := SeriesDate(rows[j]).value;
    MonthLabelOfKey(d.year, d.month);
  }

  /** A dated row whose year has fewer than four digits makes the series
      raise `ValueError` as soon as its month falls in the window. */
  lemma ShortYearRaises(rows: seq<Row>, months: int, j: nat)
    requires j < |rows| && Flows(rows[j]) && SeriesDate(rows[j]).value.year < 1000
    requires SeriesKey(rows[j]) in Window(BucketKeys(rows), months)
    ensures SeriesOf(rows, months) == None
  {
    var d := SeriesDate(rows[j]).value;
    var k := SeriesKey(rows[j]);
    assert k == MonthKey(d.year, d.month);
    MonthLabelOfKey(d.year, d.month);
    NoLabelNoSeries(Window(BucketKeys(rows), months), k);
  }

  /** One unreadable key makes the whole label list fail. */
  lemma NoLabelNoSeries(keys: seq<string>, k: string)
    requires k in keys && MonthLabel(k).None?
    ensures MonthLabels(keys).None?
  {
    var i :| 0 <= i < |keys| && keys[i] == k;
  }

  lemma FlowsSplit(a: seq<Row>, r: Row, b: seq<Row>)
    requires !Flows(r)
    ensures Inflows(a + [r] + b) == Inflows(a) + [Skip] + Inflows(b)
    ensures Outflows(a + [r] + b) == Outflows(a) + [Skip] + Outflows(b)
    ensures Inflows(a + b) == Inflows(a) + Inflows(b)
    ensures Outflows(a + b) == Outflows(a) + Outflows(b)
  {
    EntriesOfSplit(InflowEntry, a + [r], b);
    EntriesOfSplit(InflowEntry, a, [r]);
    EntriesOfSplit(InflowEntry, a, b);
    EntriesOfSplit(OutflowEntry, a + [r], b);
    EntriesOfSplit(OutflowEntry, a, [r]);
    EntriesOfSplit(OutflowEntry, a, b);
    assert Inflows([r]) == [Skip] && Outflows([r]) == [Skip];
  }

  /** A row that is undated, or of another type, changes nothing wherever it
      stands. */
  lemma SeriesIgnoresRow(a: seq<Row>, r: Row, b: seq<Row>, months: int)
    requires !Flows(r)
    ensures SeriesOf(a + [r] + b, months) == SeriesOf(a + b, months)
  {
    FlowsSplit(a, r, b);
    SkipInvisible(Inflows(a), Inflows(b));
    SkipInvisible(Outflows(a), Outflows(b));
    assert BucketKeys(a + [r] + b) == BucketKeys(a + b);
    var keys := Window(BucketKeys(a + b), months);
    assert Column(keys, Inflows(a + [r] + b)) == Column(keys, Inflows(a + b));
    assert Column(keys, Outflows(a + [r] + b)) == Column(keys, Outflows(a + b));
  }

  /** Without a loader-parsed `__dt`, the series reads a row's date exactly
      as `_parse_date_ym` does. */
  lemma SameDate(r: Row)
    requires r.parsed.None?
    ensures Flows(r) <==> Counted(r)
    ensures Flows(r) ==> SeriesKey(r) == RowKey(r)
  {
  }

  lemma {:induction false} FlowSumIsKindSum(rows: seq<Row>, key: string, word: string)
    requires forall i :: 0 <= i < |rows| ==> rows[i].parsed.None?
    ensures FlowSum(rows, key, word) == KindSum(rows, key, word)
  {
    if rows != [] {
      var n := |rows| - 1;
      FlowSumIsKindSum(rows[..n], key, word);
      SameDate(rows[n]);
    }
  }

  /** Without loader-parsed dates, a month's inflow less its outflow is its
      monthly net cash flow. */
  lemma SeriesAgreesWithNet(rows: seq<Row>, key: string)
    requires forall i :: 0 <= i < |rows| ==> rows[i].parsed.None?
    ensures Total(Inflows(rows), key) - Total(Outflows(rows), key) == Total(NetEntries(rows), key)
  {
    FlowTotals(rows, key);
    NetTotal(rows, key);
    FlowSumIsKindSum(rows, key, "income");
    FlowSumIsKindSum(rows, key, "expense");
    FlowSumIsKindSum(rows, key, "transfer-out");
  }

  /** Without loader-parsed dates, the series' bucket keys are exactly the
      months of the net cash flow chart, in the same order. */
  lemma SeriesMonthsAreNetMonths(rows: seq<Row>)
    requires forall i :: 0 <= i < |rows| ==> rows[i].parsed.None?
    ensures BucketKeys(rows) == NetChart(rows).labels
  {
    var a, b := BucketKeys(rows), NetChart(rows).labels;
    NetChartMeaning(rows);
    forall i | 0 <= i < |rows|
      ensures Flows(rows[i]) <==> Counted(rows[i])
      ensures Flows(rows[i]) ==> SeriesKey(rows[i]) == RowKey(rows[i])
    {
      SameDate(rows[i]);
    }
    forall key ensures key in Elems(a) <==> key in Elems(b) {
      BucketKeysMeaning(rows, key);
    }
    AscendingUnique(a, b);
  }
}

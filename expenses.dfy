/** `_category_expenses` and `_mode_expenses`: the expense rows' amounts summed
    per category (or per payment mode), labels in first-seen order. */
module Expenses {
  import opened Collections
  import opened Strings
  import opened Ledger
  import opened Tallies

  predicate IsExpense(r: Row)
  {
    Kind(r) == "expense"
  }

  /** What row `r` adds to the totals keyed by field `f`. */
  function ExpenseEntry(f: Field, r: Row): Entry
  {
    if IsExpense(r) then Count(Label(r, f), Amount(r)) else Skip
  }

  function Entries(f: Field, rows: seq<Row>): seq<Entry>
  {
    EntriesOf(x => ExpenseEntry(f, x), rows)
  }

  function Title(f: Field): string
  {
    match f
    case Category => "Category Expenses"
    case Mode => "Payment Mode Expenses"
  }

  /** The reference result: one label per distinct category (mode) of the
      expense rows, in the order each first appears, with the total of the
      amounts of the expense rows carrying it. */
  function ExpenseChart(f: Field, rows: seq<Row>): Chart
  {
    var es := Entries(f, rows);
    Chart(Title(f), Labels(es), Column(Labels(es), es))
  }

  /** The shared body of `_category_expenses` and `_mode_expenses`. */
  method ExpensesBy(rows: seq<Row>, f: Field) returns (chart: Chart)
    ensures chart == ExpenseChart(f, rows)
  {
    var totals := Empty;
    EmptyCounts();
    for i := 0 to |rows|
      invariant totals.Counts(Entries(f, rows[..i]))
    {
      var r := rows[i];
      CountStep(totals, Entries(f, rows[..i]), ExpenseEntry(f, r));
      EntriesOfPrefix(x => ExpenseEntry(f, x), rows, i);
      if Kind(r) == "expense" {
        var key := Label(r, f);
        totals := totals.Add(key, Amount(r));
      }
    }
    assert rows[..|rows|] == rows;
    var labels, data := Items(totals, Entries(f, rows));
    chart := Chart(Title(f), labels, data);
  }

  /** `_category_expenses(rows)` */
  method CategoryExpenses(rows: seq<Row>) returns (chart: Chart)
    ensures chart == ExpenseChart(Category, rows)
  {
    chart := ExpensesBy(rows, Category);
  }

  /** `_mode_expenses(rows)` */
  method ModeExpenses(rows: seq<Row>) returns (chart: Chart)
    ensures chart == ExpenseChart(Mode, rows)
  {
    chart := ExpensesBy(rows, Mode);
  }

  /** The label of each expense row, in row order. */
  function ExpenseLabels(f: Field, rows: seq<Row>): seq<string>
  {
    if rows == [] then []
    else
      var r := rows[|rows| - 1];
      ExpenseLabels(f, rows[..|rows| - 1]) + (if IsExpense(r) then [Label(r, f)] else [])
  }

  /** The sum of the amounts of the expense rows labelled `key`. */
  function LabelSum(f: Field, rows: seq<Row>, key: string): int
  {
    if rows == [] then 0
    else
      var r := rows[|rows| - 1];
      LabelSum(f, rows[..|rows| - 1], key) + (if IsExpense(r) && Label(r, f) == key then Amount(r) else 0)
  }

  /** The sum of the amounts of all expense rows. */
  function ExpenseSum(rows: seq<Row>): int
  {
    if rows == [] then 0
    else
      var r := rows[|rows| - 1];
      ExpenseSum(rows[..|rows| - 1]) + (if IsExpense(r) then Amount(r) else 0)
  }

  /** The entries say, row by row, what the expense rows carry. */
  lemma {:induction false} EntriesMeaning(f: Field, rows: seq<Row>, key: string)
    ensures Keys(Entries(f, rows)) == ExpenseLabels(f, rows)
    ensures Total(Entries(f, rows), key) == LabelSum(f, rows, key)
    ensures Net(Entries(f, rows)) == ExpenseSum(rows)
  {
    if rows != [] {
      var n := |rows| - 1;
      var es := Entries(f, rows);
      assert es[..n] == Entries(f, rows[..n]);
      EntriesMeaning(f, rows[..n], key);
    }
  }

  /** Labels and data line up; the labels are the distinct categories (modes)
      of the expense rows, each listed once, in the order of their first
      appearance; each datum is the sum of the amounts of the expense rows
      with that label; and the data add up to the sum of all expense amounts. */
  lemma ExpenseChartMeaning(f: Field, rows: seq<Row>)
    ensures var c := ExpenseChart(f, rows);
      && |c.labels| == |c.data|
      && NoDup(c.labels)
      && Elems(c.labels) == Elems(ExpenseLabels(f, rows))
      && (forall i :: 0 <= i < |c.labels| ==> c.labels[i] in ExpenseLabels(f, rows))
      && (forall i, j :: 0 <= i < j < |c.labels| ==>
            FirstIndex(ExpenseLabels(f, rows), c.labels[i]) < FirstIndex(ExpenseLabels(f, rows), c.labels[j]))
      && (forall i :: 0 <= i < |c.labels| ==> c.data[i] == LabelSum(f, rows, c.labels[i]))
      && Sum(c.data) == ExpenseSum(rows)
  {
    var es := Entries(f, rows);
    var c := ExpenseChart(f, rows);
    EntriesMeaning(f, rows, "");
    forall i | 0 <= i < |c.labels| ensures c.labels[i] in ExpenseLabels(f, rows) {
      assert c.labels[i] in Elems(c.labels);
    }
    forall i | 0 <= i < |c.labels| ensures c.data[i] == LabelSum(f, rows, c.labels[i]) {
      EntriesMeaning(f, rows, c.labels[i]);
    }
    forall i, j | 0 <= i < j < |c.labels|
      ensures FirstIndex(ExpenseLabels(f, rows), c.labels[i]) < FirstIndex(ExpenseLabels(f, rows), c.labels[j])
    {
      DedupFirstSeen(Keys(es), i, j);
    }
    SumOfColumn(es);
  }

  /** Every label is a non-blank, stripped category (mode), or "Other". */
  lemma LabelsNormalised(f: Field, rows: seq<Row>, i: nat)
    requires i < |ExpenseChart(f, rows).labels|
    ensures var l := ExpenseChart(f, rows).labels[i];
      l != [] && !IsSpace(l[0]) && !IsSpace(l[|l| - 1])
  {
    var es := Entries(f, rows);
    var l := ExpenseChart(f, rows).labels[i];
    assert l in Elems(Keys(es));
    var k :| 0 <= k < |Keys(es)| && Keys(es)[k] == l;
    KeysAreLabels(f, rows, k);
    var r :| r in rows && IsExpense(r) && Label(r, f) == l;
    LabelFacts(r, f);
  }

  lemma {:induction false} KeysAreLabels(f: Field, rows: seq<Row>, k: nat)
    requires k < |Keys(Entries(f, rows))|
    ensures exists r :: r in rows && IsExpense(r) && Label(r, f) == Keys(Entries(f, rows))[k]
  {
    var n := |rows| - 1;
    var es := Entries(f, rows);
    assert es[..n] == Entries(f, rows[..n]);
    if k < |Keys(es[..n])| {
      KeysAreLabels(f, rows[..n], k);
      var r :| r in rows[..n] && IsExpense(r) && Label(r, f) == Keys(Entries(f, rows[..n]))[k];
      assert r in rows;
    } else {
      assert rows[n] in rows;
    }
  }

  function ExpenseRows(rows: seq<Row>): seq<Row>
  {
    if rows == [] then []
    else
      var r := rows[|rows| - 1];
      ExpenseRows(rows[..|rows| - 1]) + (if IsExpense(r) then [r] else [])
  }

  /** Only expense rows matter: dropping every other row changes nothing. */
  lemma ExpenseRowsOnly(f: Field, rows: seq<Row>)
    ensures ExpenseChart(f, rows) == ExpenseChart(f, ExpenseRows(rows))
  {
    var es, fs := Entries(f, rows), Entries(f, ExpenseRows(rows));
    EntriesMeaning(f, rows, "");
    EntriesMeaning(f, ExpenseRows(rows), "");
    ExpenseRowsSame(f, rows);
    forall k ensures Total(es, k) == Total(fs, k) {
      EntriesMeaning(f, rows, k);
      EntriesMeaning(f, ExpenseRows(rows), k);
      ExpenseRowsSum(f, rows, k);
    }
  }

  lemma {:induction false} ExpenseRowsSame(f: Field, rows: seq<Row>)
    ensures ExpenseLabels(f, ExpenseRows(rows)) == ExpenseLabels(f, rows)
  {
    if rows != [] {
      var p, r := rows[..|rows| - 1], rows[|rows| - 1];
      ExpenseRowsSame(f, p);
      if IsExpense(r) {
        var q := ExpenseRows(p) + [r];
        assert ExpenseRows(rows) == q;
        assert q[..|q| - 1] == ExpenseRows(p) && q[|q| - 1] == r;
      } else {
        assert ExpenseRows(rows) == ExpenseRows(p);
      }
    }
  }

  lemma {:induction false} ExpenseRowsSum(f: Field, rows: seq<Row>, key: string)
    ensures LabelSum(f, ExpenseRows(rows), key) == LabelSum(f, rows, key)
  {
    if rows != [] {
      var p, r := rows[..|rows| - 1], rows[|rows| - 1];
      ExpenseRowsSum(f, p, key);
      if IsExpense(r) {
        var q := ExpenseRows(p) + [r];
        assert ExpenseRows(rows) == q;
        assert q[..|q| - 1] == ExpenseRows(p) && q[|q| - 1] == r;
      } else {
        assert ExpenseRows(rows) == ExpenseRows(p);
      }
    }
  }
}

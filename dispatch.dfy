/** The `/api/analytics` dispatch: the `by` query parameter, lowered, picks
    an aggregator from `ANALYTICS_MAP`; anything else falls back to the
    category breakdown. */
module Dispatch {
  import opened Collections
  import opened Strings
  import opened Ledger
  import Expenses
  import NetCashflow

  /** The aggregators `ANALYTICS_MAP` names. */
  datatype Analytic = ByCategory | ByMode | ByNet

  /** `ANALYTICS_MAP` */
  const AnalyticsMap: map<string, Analytic> := map["category" := ByCategory, "mode" := ByMode, "net" := ByNet]

  /** `ANALYTICS_MAP.get(request.args.get("by", "category").lower(), _category_expenses)`:
      `param` is `None` when the query has no such parameter. */
  function Resolve(param: Option<string>): (a: Analytic)
    ensures a == ByMode <==> Lower(param.GetOr("category")) == "mode"
    ensures a == ByNet <==> Lower(param.GetOr("category")) == "net"
  {
    var key := Lower(param.GetOr("category"));
    if key in AnalyticsMap then AnalyticsMap[key] else ByCategory
  }

  /** The payload the chosen aggregator computes. */
  function ChartFor(a: Analytic, rows: seq<Row>): Chart
  {
    match a
    case ByCategory => Expenses.ExpenseChart(Category, rows)
    case ByMode => Expenses.ExpenseChart(Mode, rows)
    case ByNet => NetCashflow.NetChart(rows)
  }

  /** `api_analytics()` after `load_rows()`: the rows are a parameter. */
  method Analytics(param: Option<string>, rows: seq<Row>) returns (chart: Chart)
    ensures chart == ChartFor(Resolve(param), rows)
  {
    var a := Resolve(param);
    match a
    case ByCategory => chart := Expenses.CategoryExpenses(rows);
    case ByMode => chart := Expenses.ModeExpenses(rows);
    case ByNet => chart := NetCashflow.MonthlyNetCashflow(rows);
  }

  /** A missing parameter, and any value that is none of the three keys
      once lowered, give the category breakdown. */
  lemma UnknownIsCategory(param: Option<string>, rows: seq<Row>)
    requires Lower(param.GetOr("category")) !in {"mode", "net"}
    ensures ChartFor(Resolve(param), rows) == ChartFor(Resolve(Some("category")), rows)
    ensures ChartFor(Resolve(param), rows) == Expenses.ExpenseChart(Category, rows)
  {
  }

  /** The parameter is matched without regard to ASCII case. */
  lemma ResolveIgnoresCase(s: string)
    ensures Resolve(Some(s)) == Resolve(Some(Lower(s)))
  {
    LowerIdempotent(s);
  }
}

/** Transaction rows as the analytics read them, and the field normalisations
    every aggregator shares. */
module Ledger {
  import opened Collections
  import opened Strings
  import opened Dates

  /** One row handed over by the row loader: the raw text fields the analytics
      read (`None` when the row has no such key), the parsed amount `__amt`
      (in cents) and the parsed date `__dt`. */
  datatype Row = Row(
    date: Option<string>,      // "Date", as "dd-mm-YYYY"
    kind: Option<string>,      // "Income/Expense"
    category: Option<string>,  // "Category"
    mode: Option<string>,      // "Mode"
    amount: Option<int>,       // "__amt"
    parsed: Option<Date>)      // "__dt"

  /** An aggregate as handed to the chart: a title, the bucket labels and one
      value per label. */
  datatype Chart = Chart(title: string, labels: seq<string>, data: seq<int>)

  /** `(r.get("Income/Expense") or "").strip().lower()` */
  function Kind(r: Row): string
  {
    Lower(Trim(r.kind.GetOr("")))
  }

  /** The normalised type equals a word with no capital letters (such as
      "expense", "income" or "transfer-out") exactly when the stripped
      `Income/Expense` text is that word in any ASCII letter case; a missing
      type never matches a non-empty word. */
  lemma KindMatches(r: Row, w: string)
    requires Lower(w) == w
    ensures Kind(r) == w <==> SameIgnoringCase(Trim(r.kind.GetOr("")), w)
    ensures r.kind.None? && w != "" ==> Kind(r) != w
  {
    var t := Trim(r.kind.GetOr(""));
    if Kind(r) == w {
      forall k | 0 <= k < |t| ensures LowerChar(t[k]) == LowerChar(w[k]) {
        assert Lower(w)[k] == LowerChar(w[k]);
      }
    }
    if SameIgnoringCase(t, w) {
      forall k | 0 <= k < |t| ensures Lower(t)[k] == w[k] {
        assert Lower(w)[k] == LowerChar(w[k]);
      }
    }
  }

  /** `float(r.get("__amt", 0.0))` */
  function Amount(r: Row): int
  {
    r.amount.GetOr(0)
  }

  /** The two text fields expenses are grouped by. */
  datatype Field = Category | Mode

  function Raw(r: Row, f: Field): Option<string>
  {
    match f
    case Category => r.category
    case Mode => r.mode
  }

  /** `(r.get(field) or "Other").strip() or "Other"`: a missing or blank field
      becomes "Other", any other is stripped of surrounding whitespace. */
  function Label(r: Row, f: Field): string
  {
    var raw := match Raw(r, f) case Some(s) => (if s == "" then "Other" else s) case None => "Other";
    var s := Trim(raw);
    if s == "" then "Other" else s
  }

  /** A missing or blank field is labelled "Other", any other by its strip;
      either way the label is non-empty and has no surrounding whitespace. */
  lemma LabelFacts(r: Row, f: Field)
    ensures var l := Label(r, f);
      && (IsBlank(Raw(r, f).GetOr("")) ==> l == "Other")
      && (!IsBlank(Raw(r, f).GetOr("")) ==> l == Trim(Raw(r, f).GetOr("")))
      && l != [] && !IsSpace(l[0]) && !IsSpace(l[|l| - 1])
  {
    TrimStripped("Other");
    TrimFacts(Raw(r, f).GetOr(""));
  }

  /** `(r.get("Date") or "").strip()` */
  function DateText(r: Row): string
  {
    Trim(r.date.GetOr(""))
  }

  /** `_parse_date_ym(r)`: the year and month of the row's `Date` field, or
      `None` (the source's `(None, None)`) when it does not parse; never an
      exception. */
  function ParseDateYM(r: Row): (ym: Option<(int, int)>)
    ensures ym.Some? ==> 1 <= ym.value.0 <= 9999 && 1 <= ym.value.1 <= 12
  {
    match ParseDMY(DateText(r))
    case Some(d) => Some((d.year, d.month))
    case None => None
  }

  /** `_parse_date_ym` returns `(y, m)` exactly when the stripped `Date` text
      is some rendering of a date in month `m` of year `y`. */
  lemma ParseDateYMExactly(r: Row, y: int, m: int)
    ensures ParseDateYM(r) == Some((y, m)) <==>
      exists d: Date :: d.year == y && d.month == m && DateText(r) in Renderings(d)
  {
    if ParseDateYM(r) == Some((y, m)) {
      ParseIsRendering(DateText(r));
    }
    if exists d: Date :: d.year == y && d.month == m && DateText(r) in Renderings(d) {
      var d: Date :| d.year == y && d.month == m && DateText(r) in Renderings(d);
      ParseExactly(DateText(r), d);
    }
  }

  /** A missing, empty or blank `Date` gives no bucket. */
  lemma BlankDateUnparsed(r: Row)
    requires IsBlank(r.date.GetOr(""))
    ensures ParseDateYM(r) == None
  {
    TrimFacts(r.date.GetOr(""));
  }
}

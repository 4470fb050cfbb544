/** Calendar dates, the `%d-%m-%Y` parse the dashboard applies to a row's
    `Date` field, the `"YYYY-MM"` bucket key and its month-name label. */
module Dates {
  import opened Collections
  import opened Strings
  import opened Numerals

  datatype Ymd = Ymd(year: int, month: int, day: int)

  predicate IsLeapYear(y: int)
  {
    y % 4 == 0 && (y % 100 != 0 || y % 400 == 0)
  }

  function DaysInMonth(y: int, m: int): int
    requires 1 <= m <= 12
  {
    if m == 2 then (if IsLeapYear(y) then 29 else 28)
    else if m in {4, 6, 9, 11} then 30
    else 31
  }

  /** What Python's `datetime` accepts: years 1 to 9999. */
  predicate ValidDate(d: Ymd)
  {
    1 <= d.year <= 9999 && 1 <= d.month <= 12 && 1 <= d.day <= DaysInMonth(d.year, d.month)
  }

  /** A `datetime` value (a parsed `__dt` or the result of `strptime`). */
  type Date = d: Ymd | ValidDate(d) witness Ymd(1, 1, 1)

  /** The ASCII-digit texts without surrounding whitespace that `strptime`
      accepts for a `%d` or `%m` field of value `n`: two digits, or one digit
      when `n` is below ten. (`%d` also accepts a space and one digit, which a stripped
      text cannot start with.) */
  function Spellings(n: nat): set<string>
  {
    {Fixed(n, 2)} + (if 1 <= n <= 9 then {Fixed(n, 1)} else {})
  }

  /** Every stripped text of ASCII digits that `strptime(text, "%d-%m-%Y")`
      turns into `d`. */
  function Renderings(d: Date): set<string>
  {
    set a, b | a in Spellings(d.day) && b in Spellings(d.month) :: a + "-" + b + "-" + Fixed(d.year, 4)
  }

  /** Reads a leading `%d` or `%m` field and the "-" after it: the field is
      one digit when a "-" follows the first character, two digits otherwise
      (the only split the regular expression behind `strptime` can match). */
  function SplitField(s: string): Option<(nat, string)>
  {
    var w := if |s| >= 2 && s[1] == '-' then 1 else 2;
    if |s| < w + 1 || !AllDigits(s[..w]) || s[w] != '-' then None
    else Some((Value(s[..w]), s[w + 1..]))
  }

  /** `datetime.strptime(s, "%d-%m-%Y")` for a text `s` already stripped of
      surrounding whitespace, as every caller passes it: a day field of one
      or two digits, "-", a month field of one or two digits, "-", exactly
      four year digits and nothing after; then `datetime`'s range checks
      (month 1 to 12, year at least 1, day within the month). `None` is the
      `ValueError`. The space-and-digit day form of `%d` is not modelled: a
      stripped text never starts with a space. Digits are ASCII digits;
      Python also accepts any Unicode decimal digit in the four year
      positions and as the second digit of a two-digit day starting with 1
      or 2, which this model rejects. */
  function ParseDMY(s: string): Option<Date>
  {
    match SplitField(s)
    case None => None
    case Some((d, rest)) => ParseMonthYear(d, rest)
  }

  /** The rest of `ParseDMY` once the day field `d` is read. */
  function ParseMonthYear(d: nat, rest: string): Option<Date>
  {
    match SplitField(rest)
    case None => None
    case Some((m, digits)) => ParseYear(d, m, digits)
  }

  /** The rest of `ParseDMY` once day `d` and month `m` are read. */
  function ParseYear(d: nat, m: nat, digits: string): Option<Date>
  {
    if |digits| != 4 || !AllDigits(digits) then None
    else
      var y := Value(digits);
      if 1 <= m <= 12 && 1 <= y && 1 <= d <= DaysInMonth(y, m) then Some(Ymd(y, m, d)) else None
  }

  lemma SplitFieldOf(a: string, t: string)
    requires 1 <= |a| <= 2 && AllDigits(a)
    ensures SplitField(a + "-" + t) == Some((Value(a), t))
  {
    var s := a + "-" + t;
    assert |a| == 2 ==> s[1] == a[1] && IsDigit(a[1]);
    assert s[..|a|] == a && s[|a|] == '-' && s[|a| + 1..] == t;
  }

  /** `ParseDMY` on three digit fields of the accepted widths reads their values. */
  lemma ParseFields(a: string, b: string, y: string)
    requires 1 <= |a| <= 2 && 1 <= |b| <= 2 && |y| == 4
    requires AllDigits(a) && AllDigits(b) && AllDigits(y)
    ensures ParseDMY(a + "-" + b + "-" + y) ==
      var d, m, n := Value(a), Value(b), Value(y);
      if 1 <= m <= 12 && 1 <= n && 1 <= d <= DaysInMonth(n, m) then Some(Ymd(n, m, d)) else None
  {
    var rest := b + "-" + y;
    assert a + "-" + b + "-" + y == a + "-" + rest;
    SplitFieldOf(a, rest);
    assert ParseDMY(a + "-" + rest) == ParseMonthYear(Value(a), rest);
    SplitFieldOf(b, y);
    assert ParseMonthYear(Value(a), rest) == ParseYear(Value(a), Value(b), y);
  }

  lemma SpellingFacts(n: nat, a: string)
    requires n <= 31 && a in Spellings(n)
    ensures 1 <= |a| <= 2 && AllDigits(a) && Value(a) == n
  {
    if a == Fixed(n, 2) {
      ValueOfFixed(n, 2);
    } else {
      ValueOfFixed(n, 1);
    }
  }

  /** Every rendering of a date parses back to that date. */
  lemma ParseRendering(d: Date, a: string, b: string)
    requires a in Spellings(d.day) && b in Spellings(d.month)
    ensures ParseDMY(a + "-" + b + "-" + Fixed(d.year, 4)) == Some(d)
  {
    SpellingFacts(d.day, a);
    SpellingFacts(d.month, b);
    ValueOfFixed(d.year, 4);
    ParseFields(a, b, Fixed(d.year, 4));
  }

  /** A field `SplitField` reads, if its value is not 0, is one of that
      value's spellings. */
  lemma SplitFieldSpelling(s: string) returns (a: string)
    requires SplitField(s).Some? && SplitField(s).value.0 >= 1
    ensures a in Spellings(SplitField(s).value.0) && s == a + "-" + SplitField(s).value.1
  {
    var w := if |s| >= 2 && s[1] == '-' then 1 else 2;
    a := s[..w];
    FixedOfValue(a);
    assert s == a + "-" + s[w + 1..];
  }

  /** Whatever `ParseDMY` accepts is a rendering of the date it returns. */
  lemma ParseIsRendering(s: string)
    requires ParseDMY(s).Some?
    ensures s in Renderings(ParseDMY(s).value)
  {
    var d := ParseDMY(s).value;
    var rest := SplitField(s).value.1;
    assert ParseMonthYear(d.day, rest) == Some(d);
    var a := SplitFieldSpelling(s);
    var y := SplitField(rest).value.1;
    assert ParseYear(d.day, d.month, y) == Some(d);
    var b := SplitFieldSpelling(rest);
    FixedOfValue(y);
    assert s == a + "-" + b + "-" + Fixed(d.year, 4);
  }

  /** On stripped text, `strptime(s, "%d-%m-%Y")` yields `d` exactly when `s`
      is a rendering of `d`. */
  lemma ParseExactly(s: string, d: Date)
    ensures ParseDMY(s) == Some(d) <==> s in Renderings(d)
  {
    if s in Renderings(d) {
      var a, b :| a in Spellings(d.day) && b in Spellings(d.month) && s == a + "-" + b + "-" + Fixed(d.year, 4);
      ParseRendering(d, a, b);
    }
    if ParseDMY(s) == Some(d) {
      ParseIsRendering(s);
    }
  }

  /** `f"{y}-{m:02d}"`: the year as `str(y)` (unpadded), the month zero-padded. */
  function MonthKey(y: nat, m: nat): string
  {
    Decimal(y) + "-" + Pad2(m)
  }

  /** The `"YYYY-MM"` shape: four year digits, "-", two month digits
      naming a month. */
  predicate IsYearMonth(k: string)
  {
    |k| == 7 && AllDigits(k[..4]) && k[4] == '-' && AllDigits(k[5..]) && 1 <= Value(k[5..]) <= 12
  }

  /** A bucket key of a four-digit year has the `"YYYY-MM"` shape and reads
      back as its year and month. */
  lemma MonthKeyShape(y: nat, m: nat)
    requires 1000 <= y <= 9999 && 1 <= m <= 12
    ensures var k := MonthKey(y, m);
      IsYearMonth(k) && Value(k[..4]) == y && Value(k[5..]) == m
  {
    var k := MonthKey(y, m);
    DecimalIsFixed(y, 4);
    Pad2IsFixed(m);
    assert k[..4] == Fixed(y, 4) && k[4] == '-' && k[5..] == Fixed(m, 2);
    ValueOfFixed(y, 4);
    ValueOfFixed(m, 2);
  }

  /** For four-digit years the bucket keys sort chronologically. */
  lemma KeysChronological(y1: nat, m1: nat, y2: nat, m2: nat)
    requires 1000 <= y1 <= 9999 && 1000 <= y2 <= 9999
    requires 1 <= m1 <= 12 && 1 <= m2 <= 12
    ensures Less(MonthKey(y1, m1), MonthKey(y2, m2)) <==> y1 < y2 || (y1 == y2 && m1 < m2)
  {
    MonthKeyFixed(y1, m1);
    MonthKeyFixed(y2, m2);
    var f1, f2 := Fixed(y1, 4), Fixed(y2, 4);
    var g1, g2 := Fixed(m1, 2), Fixed(m2, 2);
    LessConcat(f1, "-" + g1, f2, "-" + g2);
    MonthPartOrder(m1, m2);
    FixedOrder(y1, y2, 4);
    ValueOfFixed(y1, 4);
    ValueOfFixed(y2, 4);
    assert f1 == f2 <==> y1 == y2;
  }

  /** A key of a four-digit year is the fixed-width year, "-", and the
      two-digit month. */
  lemma MonthKeyFixed(y: nat, m: nat)
    requires 1000 <= y <= 9999 && 1 <= m <= 12
    ensures MonthKey(y, m) == Fixed(y, 4) + ("-" + Fixed(m, 2))
  {
    DecimalIsFixed(y, 4);
    Pad2IsFixed(m);
  }

  /** The "-MM" parts of two keys compare as their months. */
  lemma MonthPartOrder(m1: nat, m2: nat)
    requires 1 <= m1 <= 12 && 1 <= m2 <= 12
    ensures Less("-" + Fixed(m1, 2), "-" + Fixed(m2, 2)) <==> m1 < m2
  {
    LessConcat("-", Fixed(m1, 2), "-", Fixed(m2, 2));
    LessIrreflexive("-");
    FixedOrder(m1, m2, 2);
  }

  /** Distinct buckets of four-digit years get distinct keys. */
  lemma KeysDistinct(y1: nat, m1: nat, y2: nat, m2: nat)
    requires 1000 <= y1 <= 9999 && 1000 <= y2 <= 9999
    requires 1 <= m1 <= 12 && 1 <= m2 <= 12
    ensures MonthKey(y1, m1) == MonthKey(y2, m2) <==> y1 == y2 && m1 == m2
  {
    KeysChronological(y1, m1, y2, m2);
    KeysChronological(y2, m2, y1, m1);
    LessIrreflexive(MonthKey(y1, m1));
  }

  /** String order on keys is not chronological below year 1000: the key
      of a year with fewer than four digits sorts after the key of every
      later four-digit year whose first digit is smaller than its own (so
      "999-01" sorts after "2024-12"). */
  lemma ShortYearSortsLast(y1: nat, m1: nat, y2: nat, m2: nat)
    requires 1 <= y1 < 1000 && 1000 <= y2 <= 9999
    requires y2 / 1000 < Lead(y1)
    ensures y1 < y2 && Less(MonthKey(y2, m2), MonthKey(y1, m1))
  {
    DecimalHead(y1);
    DecimalHead(y2);
    assert Lead(y2) == y2 / 1000 by {
      assert Lead(y2) == Lead(y2 / 10) == Lead(y2 / 100);
      assert y2 / 100 / 10 == y2 / 1000;
    }
    assert MonthKey(y1, m1)[0] == Decimal(y1)[0];
    assert MonthKey(y2, m2)[0] == Decimal(y2)[0];
  }

  /** `strftime("%b")` in the C locale. */
  function MonthAbbrev(m: int): string
    requires 1 <= m <= 12
  {
    ["Jan", "Feb", "Mar", "Apr", "May", "Jun", "Jul", "Aug", "Sep", "Oct", "Nov", "Dec"][m - 1]
  }

  /** `datetime.strptime(k, "%Y-%m").strftime("%b")`: exactly four year
      digits, "-", a month field of one or two digits; `None` is the
      `ValueError` that `strptime` raises otherwise. */
  function MonthLabel(k: string): Option<string>
  {
    if |k| < 6 || !AllDigits(k[..4]) || k[4] != '-' || |k| > 7 || !AllDigits(k[5..]) then None
    else
      var y, m := Value(k[..4]), Value(k[5..]);
      if 1 <= y && 1 <= m <= 12 then Some(MonthAbbrev(m)) else None
  }

  /** The label of a bucket key is the month's name, the year dropped; a key
      whose year has fewer than four digits cannot be read back by `%Y`. */
  lemma MonthLabelOfKey(y: nat, m: nat)
    requires 1 <= y <= 9999 && 1 <= m <= 12
    ensures MonthLabel(MonthKey(y, m)) == if y >= 1000 then Some(MonthAbbrev(m)) else None
  {
    var k := MonthKey(y, m);
    Pad2IsFixed(m);
    if y >= 1000 {
      DecimalIsFixed(y, 4);
      assert k[..4] == Fixed(y, 4) && k[4] == '-' && k[5..] == Fixed(m, 2);
      ValueOfFixed(y, 4);
      ValueOfFixed(m, 2);
    } else {
      DecimalShort(y);
      var n := |Decimal(y)|;
      assert k[n] == '-';
      if |k| >= 6 {
        assert k[..4][n] == '-';
      }
    }
  }
}

/** Decimal numerals: `int()` of a digit string, `str()` of a natural number,
    and zero-padded fixed-width rendering (`f"{n:02d}"`). */
module Numerals {
  import opened Strings

  predicate IsDigit(c: char)
  {
    '0' <= c <= '9'
  }

  predicate AllDigits(s: string)
  {
    forall k :: 0 <= k < |s| ==> IsDigit(s[k])
  }

  function DigitChar(d: nat): (c: char)
    requires d < 10
    ensures IsDigit(c) && c as int - '0' as int == d
  {
    ('0' as int + d) as char
  }

  function Pow10(w: nat): (p: nat)
    ensures p >= 1
  {
    if w == 0 then 1 else 10 * Pow10(w - 1)
  }

  /** `int(s)` for a string of ASCII digits (leading zeros allowed). */
  function Value(s: string): (n: nat)
    requires AllDigits(s)
    ensures n < Pow10(|s|)
  {
    if s == [] then 0
    else
      var n := Value(s[..|s| - 1]) * 10 + (s[|s| - 1] as int - '0' as int);
      assert n < Pow10(|s|) by {
        assert Value(s[..|s| - 1]) + 1 <= Pow10(|s| - 1);
      }
      n
  }

  /** The `w` lowest decimal digits of `n`, zero-padded to width `w`. */
  function Fixed(n: nat, w: nat): (r: string)
    ensures |r| == w && AllDigits(r)
  {
    if w == 0 then [] else Fixed(n / 10, w - 1) + [DigitChar(n % 10)]
  }

  /** `str(n)`: the decimal numeral of `n` without leading zeros. */
  function Decimal(n: nat): (r: string)
    ensures r != [] && AllDigits(r)
  {
    if n < 10 then [DigitChar(n)] else Decimal(n / 10) + [DigitChar(n % 10)]
  }

  /** The leading decimal digit of `n`. */
  function Lead(n: nat): (d: nat)
    ensures d < 10
  {
    if n < 10 then n else Lead(n / 10)
  }

  /** `str(n)` starts with the leading digit of `n`. */
  lemma {:induction false} DecimalHead(n: nat)
    ensures Decimal(n)[0] == DigitChar(Lead(n))
  {
    if n >= 10 {
      DecimalHead(n / 10);
    }
  }

  /** `f"{n:02d}"`: at least two digits, zero-padded on the left. */
  function Pad2(n: nat): string
  {
    if n < 10 then ['0'] + Decimal(n) else Decimal(n)
  }

  /** Reading back a fixed-width rendering gives the number. */
  lemma {:induction false} ValueOfFixed(n: nat, w: nat)
    requires n < Pow10(w)
    ensures Value(Fixed(n, w)) == n
  {
    if w > 0 {
      var f := Fixed(n, w);
      assert f[..w - 1] == Fixed(n / 10, w - 1);
      ValueOfFixed(n / 10, w - 1);
    }
  }

  /** Rendering the value of a digit string at its own width gives it back. */
  lemma {:induction false} FixedOfValue(s: string)
    requires AllDigits(s)
    ensures Fixed(Value(s), |s|) == s
  {
    if s != [] {
      var p := s[..|s| - 1];
      var d := s[|s| - 1] as int - '0' as int;
      assert Value(s) / 10 == Value(p) && Value(s) % 10 == d;
      FixedOfValue(p);
      assert s == p + [s[|s| - 1]];
    }
  }

  /** `str(n)` is the fixed-width rendering at `n`'s own number of digits. */
  lemma {:induction false} DecimalIsFixed(n: nat, w: nat)
    requires 1 <= w && n < Pow10(w)
    requires w == 1 || Pow10(w - 1) <= n
    ensures Decimal(n) == Fixed(n, w)
  {
    if w == 1 {
      assert n < 10;
    } else {
      assert Pow10(w - 2) <= n / 10 < Pow10(w - 1) by {
        assert Pow10(w - 1) == 10 * Pow10(w - 2);
      }
      DecimalIsFixed(n / 10, w - 1);
    }
  }

  lemma {:induction false} DecimalShort(n: nat)
    requires n < 1000
    ensures |Decimal(n)| <= 3
  {
    if n >= 10 {
      DecimalShort(n / 10);
      if n / 10 >= 10 {
        DecimalShort(n / 100);
      }
    }
  }

  lemma Pad2IsFixed(n: nat)
    requires n < 100
    ensures Pad2(n) == Fixed(n, 2)
  {
    if n < 10 {
      assert Fixed(n, 2) == Fixed(0, 1) + [DigitChar(n)];
    } else {
      DecimalIsFixed(n, 2);
    }
  }

  /** Fixed-width numerals compare as strings exactly as their numbers do. */
  lemma {:induction false} FixedOrder(a: nat, b: nat, w: nat)
    requires a < Pow10(w) && b < Pow10(w)
    ensures Less(Fixed(a, w), Fixed(b, w)) <==> a < b
  {
    if w == 0 {
      assert a == 0 && b == 0;
    } else {
      var fa, fb := Fixed(a / 10, w - 1), Fixed(b / 10, w - 1);
      var ca, cb := DigitChar(a % 10), DigitChar(b % 10);
      LessConcat(fa, [ca], fb, [cb]);
      FixedOrder(a / 10, b / 10, w - 1);
      ValueOfFixed(a / 10, w - 1);
      ValueOfFixed(b / 10, w - 1);
      assert fa == fb <==> a / 10 == b / 10;
      assert Less([ca], [cb]) <==> a % 10 < b % 10 by {
        assert Less([ca], [cb]) <==> ca < cb;
      }
    }
  }
}

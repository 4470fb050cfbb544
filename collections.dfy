/** Helpers shared by the aggregators: an option type (Python's `None`), the
    element set of a sequence, duplicate-freedom, first-seen de-duplication
    (the key order of a Python dict) and integer sums. */
module Collections {

  datatype Option<+T> = None | Some(value: T)
  {
    /** Python's `x or default` when the only falsy value of `x` is `None`. */
    function GetOr(default: T): T
    {
      match this
      case Some(v) => v
      case None => default
    }
  }

  /** The set of elements of a sequence. */
  function Elems<T>(s: seq<T>): set<T>
  {
    set x | x in s
  }

  predicate NoDup<T(==)>(s: seq<T>)
  {
    forall i, j :: 0 <= i < j < |s| ==> s[i] != s[j]
  }

  /** Index of the first occurrence of `x` in `s`. */
  function FirstIndex<T(==)>(s: seq<T>, x: T): (k: nat)
    requires x in s
    ensures k < |s| && s[k] == x
    ensures forall j :: 0 <= j < k ==> s[j] != x
  {
    if s[0] == x then 0 else 1 + FirstIndex(s[1..], x)
  }

  /** The distinct elements of `s`, each kept where it first occurs: the key
      order of a dictionary filled by visiting `s` from left to right. */
  function Dedup<T(==)>(s: seq<T>): (d: seq<T>)
    ensures NoDup(d)
    ensures Elems(d) == Elems(s)
  {
    if s == [] then []
    else
      var d := Dedup(s[..|s| - 1]);
      assert s == s[..|s| - 1] + [s[|s| - 1]];
      assert Elems(s) == Elems(s[..|s| - 1]) + {s[|s| - 1]};
      if s[|s| - 1] in d then d else d + [s[|s| - 1]]
  }

  lemma FirstIndexInPrefix<T>(p: seq<T>, x: T, y: T)
    requires y in p
    ensures FirstIndex(p + [x], y) == FirstIndex(p, y)
  {
    if p[0] != y {
      assert (p + [x])[1..] == p[1..] + [x];
      FirstIndexInPrefix(p[1..], x, y);
    }
  }

  lemma FirstIndexAtEnd<T>(p: seq<T>, x: T)
    requires x !in p
    ensures FirstIndex(p + [x], x) == |p|
  {
    if p != [] {
      assert (p + [x])[1..] == p[1..] + [x];
      FirstIndexAtEnd(p[1..], x);
    }
  }

  /** Dedup keeps first-seen order: an element listed earlier first occurs
      earlier in the input. */
  lemma {:induction false} DedupFirstSeen<T>(s: seq<T>, i: nat, j: nat)
    requires i < j < |Dedup(s)|
    ensures Dedup(s)[i] in s && Dedup(s)[j] in s
    ensures FirstIndex(s, Dedup(s)[i]) < FirstIndex(s, Dedup(s)[j])
  {
    var p, x := s[..|s| - 1], s[|s| - 1];
    assert s == p + [x];
    var d := Dedup(p);
    assert Dedup(s)[i] in Elems(Dedup(s)) && Dedup(s)[j] in Elems(Dedup(s));
    if j < |d| {
      assert Dedup(s)[i] == d[i] && Dedup(s)[j] == d[j];
      DedupFirstSeen(p, i, j);
      FirstIndexInPrefix(p, x, d[i]);
      FirstIndexInPrefix(p, x, d[j]);
    } else {
      assert x !in d && Dedup(s) == d + [x] && Dedup(s)[j] == x;
      assert d[i] in Elems(d);
      assert x !in Elems(p);
      FirstIndexInPrefix(p, x, d[i]);
      FirstIndexAtEnd(p, x);
    }
  }

  function Sum(s: seq<int>): int
  {
    if s == [] then 0 else Sum(s[..|s| - 1]) + s[|s| - 1]
  }

  /** Raising one element raises the sum by the same amount. */
  lemma {:induction false} SumBump(s: seq<int>, j: nat, delta: int)
    requires j < |s|
    ensures Sum(s[j := s[j] + delta]) == Sum(s) + delta
  {
    var t := s[j := s[j] + delta];
    assert t[..|t| - 1] == if j < |s| - 1 then s[..|s| - 1][j := s[j] + delta] else s[..|s| - 1];
    if j < |s| - 1 {
      SumBump(s[..|s| - 1], j, delta);
    }
  }
}

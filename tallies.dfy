/** Running per-key sums: the `defaultdict(float)` each aggregator fills while
    it walks the rows, and the reference meaning of such a sum. */
module Tallies {
  import opened Collections
  import opened Strings

  /** What one row contributes to a tally: nothing, or `delta` to bucket `key`. */
  datatype Entry = Skip | Count(key: string, delta: int)

  /** The keys of the counted entries, in entry order (repeats kept). */
  function Keys(es: seq<Entry>): seq<string>
  {
    if es == [] then []
    else
      var e := es[|es| - 1];
      Keys(es[..|es| - 1]) + (if e.Count? then [e.key] else [])
  }

  /** The sum of the deltas counted for `key`. */
  function Total(es: seq<Entry>, key: string): int
  {
    if es == [] then 0
    else
      var e := es[|es| - 1];
      Total(es[..|es| - 1], key) + (if e.Count? && e.key == key then e.delta else 0)
  }

  /** The sum of all counted deltas. */
  function Net(es: seq<Entry>): int
  {
    if es == [] then 0
    else
      var e := es[|es| - 1];
      Net(es[..|es| - 1]) + (if e.Count? then e.delta else 0)
  }

  /** The buckets, each once, in the order they were first counted. */
  function Labels(es: seq<Entry>): seq<string>
  {
    Dedup(Keys(es))
  }

  /** The total of each of `ks`, position by position. */
  function Column(ks: seq<string>, es: seq<Entry>): (c: seq<int>)
    ensures |c| == |ks|
    ensures forall i :: 0 <= i < |ks| ==> c[i] == Total(es, ks[i])
  {
    seq(|ks|, i requires 0 <= i < |ks| => Total(es, ks[i]))
  }

  /** The entries of the rows `xs` under the contribution rule `g`, row by row. */
  function EntriesOf<T>(g: T -> Entry, xs: seq<T>): (es: seq<Entry>)
    ensures |es| == |xs|
    ensures forall i :: 0 <= i < |xs| ==> es[i] == g(xs[i])
  {
    seq(|xs|, i requires 0 <= i < |xs| => g(xs[i]))
  }

  /** The entries of a concatenation are the concatenated entries. */
  lemma EntriesOfSplit<T>(g: T -> Entry, xs: seq<T>, ys: seq<T>)
    ensures EntriesOf(g, xs + ys) == EntriesOf(g, xs) + EntriesOf(g, ys)
  {
    var a, b := EntriesOf(g, xs + ys), EntriesOf(g, xs) + EntriesOf(g, ys);
    forall k | 0 <= k < |a| ensures a[k] == b[k] {
      if k < |xs| {
        assert (xs + ys)[k] == xs[k];
      } else {
        assert (xs + ys)[k] == ys[k - |xs|];
      }
    }
  }

  /** The entries of one more row extend the entries of the rows before it. */
  lemma EntriesOfPrefix<T>(g: T -> Entry, xs: seq<T>, i: nat)
    requires i < |xs|
    ensures EntriesOf(g, xs[..i + 1]) == EntriesOf(g, xs[..i]) + [g(xs[i])]
  {
    assert xs[..i + 1] == xs[..i] + [xs[i]];
    EntriesOfSplit(g, xs[..i], [xs[i]]);
  }

  /** A key's total over the rows is its total over all but the last row
      plus the last row's share. */
  lemma TotalOfLast<T>(g: T -> Entry, xs: seq<T>, key: string)
    requires xs != []
    ensures Total(EntriesOf(g, xs), key) ==
      Total(EntriesOf(g, xs[..|xs| - 1]), key) + (var e := g(xs[|xs| - 1]); if e.Count? && e.key == key then e.delta else 0)
  {
    var es := EntriesOf(g, xs);
    assert es[..|xs| - 1] == EntriesOf(g, xs[..|xs| - 1]);
  }

  /** A key is counted exactly when the entry of some row counts it. */
  lemma {:induction false} KeysOfEntries<T>(g: T -> Entry, xs: seq<T>, key: string)
    ensures key in Keys(EntriesOf(g, xs)) <==>
      exists i :: 0 <= i < |xs| && g(xs[i]).Count? && g(xs[i]).key == key
  {
    if xs != [] {
      var n := |xs| - 1;
      var p := xs[..n];
      var es := EntriesOf(g, xs);
      assert es[..n] == EntriesOf(g, p);
      KeysOfEntries(g, p, key);
      assert Keys(es) == Keys(EntriesOf(g, p)) + (if es[n].Count? then [es[n].key] else []);
      if exists i :: 0 <= i < |xs| && g(xs[i]).Count? && g(xs[i]).key == key {
        var i :| 0 <= i < |xs| && g(xs[i]).Count? && g(xs[i]).key == key;
        if i < n {
          assert p[i] == xs[i];
        }
      }
      if exists i :: 0 <= i < |p| && g(p[i]).Count? && g(p[i]).key == key {
        var i :| 0 <= i < |p| && g(p[i]).Count? && g(p[i]).key == key;
        assert p[i] == xs[i];
      }
    }
  }

  /** A `defaultdict` of running sums: its keys in insertion order and its values. */
  datatype Tally = Tally(keys: seq<string>, sums: map<string, int>)
  {
    /** `totals[key] += delta`: a missing key starts at 0 and is appended. */
    function Add(key: string, delta: int): Tally
    {
      if key in sums then Tally(keys, sums[key := sums[key] + delta])
      else Tally(keys + [key], sums[key := delta])
    }

    /** `totals.get(key, 0.0)` */
    function Get(key: string): int
    {
      if key in sums then sums[key] else 0
    }

    /** The tally is what counting the entries `es` in order produces. */
    ghost predicate Counts(es: seq<Entry>)
    {
      && keys == Labels(es)
      && sums.Keys == Elems(keys)
      && forall k :: k in sums ==> sums[k] == Total(es, k)
    }
  }

  /** An empty `defaultdict(float)`. */
  const Empty := Tally([], map[])

  lemma EmptyCounts()
    ensures Empty.Counts([])
  {
  }

  /** The step of every aggregator's loop: adding the contribution of one
      more entry keeps the tally equal to the counts of the longer prefix. */
  lemma {:induction false} CountStep(t: Tally, es: seq<Entry>, e: Entry)
    requires t.Counts(es)
    ensures (if e.Count? then t.Add(e.key, e.delta) else t).Counts(es + [e])
  {
    var es' := es + [e];
    assert es'[..|es'| - 1] == es;
    forall k ensures Total(es', k) == Total(es, k) + (if e.Count? && e.key == k then e.delta else 0) {
      TotalAppend(es, e, k);
    }
    if e.Count? {
      var t' := t.Add(e.key, e.delta);
      assert Keys(es') == Keys(es) + [e.key];
      assert Keys(es')[..|Keys(es')| - 1] == Keys(es);
      assert e.key in t.sums <==> e.key in Labels(es) by {
        assert e.key in Labels(es) <==> e.key in Elems(Labels(es));
      }
      if e.key !in t.sums {
        assert e.key !in Elems(Keys(es));
        TotalUncounted(es, e.key);
      }
      assert t'.keys == Labels(es');
      assert t'.sums.Keys == Elems(t'.keys);
    } else {
      assert Keys(es') == Keys(es);
    }
  }

  /** A key that was never counted totals 0. */
  lemma {:induction false} TotalUncounted(es: seq<Entry>, key: string)
    requires key !in Keys(es)
    ensures Total(es, key) == 0
  {
    if es != [] {
      TotalUncounted(es[..|es| - 1], key);
    }
  }

  /** Reading a tally with a default of 0 gives every key's total. */
  lemma GetIsTotal(t: Tally, es: seq<Entry>, key: string)
    requires t.Counts(es)
    ensures t.Get(key) == Total(es, key)
  {
    if key !in t.sums {
      assert key !in Elems(Keys(es));
      TotalUncounted(es, key);
    }
  }

  /** `labels = list(totals.keys())` and `data = [totals[k] for k in labels]`:
      the buckets in first-seen order, each with its total. */
  method Items(t: Tally, ghost es: seq<Entry>) returns (labels: seq<string>, data: seq<int>)
    requires t.Counts(es)
    ensures labels == Labels(es) && data == Column(labels, es)
  {
    labels := t.keys;
    forall k | k in labels ensures k in t.sums {
      assert k in Elems(labels);
    }
    data := seq(|labels|, j requires 0 <= j < |labels| && labels[j] in t.sums => t.sums[labels[j]]);
  }

  /** Reading any keys with a default of 0 gives their totals. */
  lemma ReadColumn(t: Tally, es: seq<Entry>, ks: seq<string>)
    requires t.Counts(es)
    ensures seq(|ks|, j requires 0 <= j < |ks| => t.Get(ks[j])) == Column(ks, es)
  {
    var vs := seq(|ks|, j requires 0 <= j < |ks| => t.Get(ks[j]));
    forall j | 0 <= j < |ks| ensures vs[j] == Column(ks, es)[j] {
      GetIsTotal(t, es, ks[j]);
    }
  }

  /** `labels = sorted(totals.keys())` and `data = [totals[k] for k in labels]`:
      the buckets in ascending order, each with its total. */
  method SortedItems(t: Tally, ghost es: seq<Entry>) returns (labels: seq<string>, data: seq<int>)
    requires t.Counts(es)
    ensures labels == Sort(Labels(es)) && data == Column(labels, es)
  {
    labels := Sort(t.keys);
    assert Elems(labels) == t.sums.Keys;
    forall k | k in labels ensures k in t.sums {
      assert k in Elems(labels);
    }
    data := seq(|labels|, j requires 0 <= j < |labels| && labels[j] in t.sums => t.sums[labels[j]]);
    forall j | 0 <= j < |labels| ensures data[j] == Total(es, labels[j]) {
      assert labels[j] in t.sums;
    }
  }

  /** Adding a count to an entry list extends the totals of that key only. */
  lemma TotalAppend(es: seq<Entry>, e: Entry, key: string)
    ensures Total(es + [e], key) == Total(es, key) + (if e.Count? && e.key == key then e.delta else 0)
  {
    assert (es + [e])[..|es|] == es;
  }

  /** The totals of all buckets add up to the sum of all counted deltas. */
  lemma {:induction false} SumOfColumn(es: seq<Entry>)
    ensures Sum(Column(Labels(es), es)) == Net(es)
  {
    if es != [] {
      var p, e := es[..|es| - 1], es[|es| - 1];
      assert es == p + [e];
      SumOfColumn(p);
      if e.Skip? {
        assert Keys(es) == Keys(p);
        assert Column(Labels(es), es) == Column(Labels(p), p);
      } else if e.key in Labels(p) {
        SumOfColumnOldKey(p, e);
      } else {
        SumOfColumnNewKey(p, e);
      }
    }
  }

  /** Counting a bucket already present raises that bucket's total only. */
  lemma SumOfColumnOldKey(p: seq<Entry>, e: Entry)
    requires e.Count? && e.key in Labels(p)
    ensures Sum(Column(Labels(p + [e]), p + [e])) == Sum(Column(Labels(p), p)) + e.delta
  {
    var lp := Labels(p);
    var cp := Column(lp, p);
    LabelsAppend(p, e);
    var j := FirstIndex(lp, e.key);
    ColumnAppendOld(p, e, lp, j);
    SumBump(cp, j, e.delta);
  }

  /** Counting a new bucket appends it with the delta as its total. */
  lemma SumOfColumnNewKey(p: seq<Entry>, e: Entry)
    requires e.Count? && e.key !in Labels(p)
    ensures Sum(Column(Labels(p + [e]), p + [e])) == Sum(Column(Labels(p), p)) + e.delta
  {
    var lp := Labels(p);
    var cp := Column(lp, p);
    LabelsAppend(p, e);
    ColumnAppendNew(p, e);
    assert (cp + [e.delta])[..|cp|] == cp;
  }

  /** The buckets after one more count: unchanged for a known key, the new
      key appended otherwise. */
  lemma LabelsAppend(p: seq<Entry>, e: Entry)
    requires e.Count?
    ensures Labels(p + [e]) == if e.key in Labels(p) then Labels(p) else Labels(p) + [e.key]
  {
    var es := p + [e];
    assert es[..|es| - 1] == p;
    assert Keys(es) == Keys(p) + [e.key];
    assert Keys(es)[..|Keys(es)| - 1] == Keys(p);
    assert e.key in Labels(p) <==> e.key in Keys(p) by {
      assert Elems(Labels(p)) == Elems(Keys(p));
      assert e.key in Labels(p) <==> e.key in Elems(Labels(p));
      assert e.key in Keys(p) <==> e.key in Elems(Keys(p));
    }
  }

  /** Counting a known bucket, at position `j`, adds the delta there only. */
  lemma ColumnAppendOld(p: seq<Entry>, e: Entry, ks: seq<string>, j: nat)
    requires e.Count? && j < |ks| && ks[j] == e.key && NoDup(ks)
    ensures Column(ks, p + [e]) == Column(ks, p)[j := Column(ks, p)[j] + e.delta]
  {
    var cp := Column(ks, p);
    forall i | 0 <= i < |ks| ensures Column(ks, p + [e])[i] == cp[j := cp[j] + e.delta][i] {
      TotalAppend(p, e, ks[i]);
    }
  }

  /** Counting a new bucket leaves the old ones and gives it the delta. */
  lemma ColumnAppendNew(p: seq<Entry>, e: Entry)
    requires e.Count? && e.key !in Labels(p)
    ensures Column(Labels(p) + [e.key], p + [e]) == Column(Labels(p), p) + [e.delta]
  {
    var lp := Labels(p);
    var cp := Column(lp, p);
    assert e.key !in Keys(p) by {
      assert Elems(lp) == Elems(Keys(p));
      assert e.key !in Elems(Keys(p));
    }
    TotalUncounted(p, e.key);
    forall i | 0 <= i < |lp| ensures Column(lp + [e.key], p + [e])[i] == cp[i] {
      TotalAppend(p, e, lp[i]);
    }
    TotalAppend(p, e, e.key);
  }

  /** With no negative delta, no bucket's total is negative. */
  lemma {:induction false} TotalNonNegative(es: seq<Entry>, key: string)
    requires forall i :: 0 <= i < |es| && es[i].Count? ==> es[i].delta >= 0
    ensures Total(es, key) >= 0
  {
    if es != [] {
      TotalNonNegative(es[..|es| - 1], key);
    }
  }

  /** With no negative delta, no total in a column is negative. */
  lemma ColumnNonNegative(ks: seq<string>, es: seq<Entry>)
    requires forall i :: 0 <= i < |es| && es[i].Count? ==> es[i].delta >= 0
    ensures forall i :: 0 <= i < |ks| ==> Column(ks, es)[i] >= 0
  {
    forall i | 0 <= i < |ks| ensures Total(es, ks[i]) >= 0 {
      TotalNonNegative(es, ks[i]);
    }
  }

  /** An entry that counts nothing, wherever it stands, changes no key and no
      total. */
  lemma {:induction false} SkipInvisible(xs: seq<Entry>, ys: seq<Entry>)
    ensures Keys(xs + [Skip] + ys) == Keys(xs + ys)
    ensures forall k :: Total(xs + [Skip] + ys, k) == Total(xs + ys, k)
  {
    if ys == [] {
      assert xs + [Skip] + ys == xs + [Skip] && xs + ys == xs;
      assert (xs + [Skip])[..|xs|] == xs;
    } else {
      var p, y := ys[..|ys| - 1], ys[|ys| - 1];
      SkipInvisible(xs, p);
      var a, b := xs + [Skip] + ys, xs + ys;
      assert a[..|a| - 1] == xs + [Skip] + p && a[|a| - 1] == y;
      assert b[..|b| - 1] == xs + p && b[|b| - 1] == y;
    }
  }
}

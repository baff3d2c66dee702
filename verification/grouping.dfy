/** Grouping by a categorical column: the distinct labels of a column, counts per
    label, and the per-category statistics of the "Categorical Analysis" tab. */
module Grouping {
  import opened Basics
  import opened Order
  import opened Frame

  // ------------------------------------------------------------- counting

  /** The number of present (non-missing) entries. */
  function Present<K>(s: seq<Option<K>>): (n: nat)
    ensures n <= |s|
  {
    if |s| == 0 then 0 else (if s[0].Some? then 1 else 0) + Present(s[1..])
  }

  /** The number of entries equal to `k`. */
  function CountOf<K(==)>(s: seq<Option<K>>, k: K): (n: nat)
    ensures n <= Present(s)
    ensures n > 0 <==> Some(k) in s
  {
    if |s| == 0 then 0
    else
      assert s == [s[0]] + s[1..];
      (if s[0] == Some(k) then 1 else 0) + CountOf(s[1..], k)
  }

  /** The present entries, missing ones dropped, in order. */
  function Compact<T>(s: seq<Option<T>>): (v: seq<T>)
    ensures |v| == Present(s)
  {
    if |s| == 0 then [] else (if s[0].Some? then [s[0].value] else []) + Compact(s[1..])
  }

  /** The distinct present values, in order of first appearance. */
  function Distinct<K(==, !new)>(s: seq<Option<K>>): (d: seq<K>)
    ensures NoDup(d)
    ensures forall k :: k in d <==> Some(k) in s
  {
    if |s| == 0 then []
    else
      var init := s[..|s| - 1];
      var d := Distinct(init);
      assert s == init + [s[|s| - 1]];
      match s[|s| - 1]
      case None => d
      case Some(k) => if k in d then d else AppendFresh(d, k); d + [k]
  }

  lemma AppendFresh<K>(d: seq<K>, k: K)
    requires NoDup(d) && k !in d
    ensures NoDup(d + [k])
  {
    assert multiset(d + [k]) == multiset(d) + multiset{k};
    forall x | x in d + [k] ensures multiset(d + [k])[x] == 1 {
      if x != k {
        assert x in d;
      }
    }
  }

  /** Every entry equal to `k` made missing. */
  function Erase<K(==)>(s: seq<Option<K>>, k: K): (r: seq<Option<K>>)
    ensures |r| == |s|
    ensures forall i :: 0 <= i < |s| ==> r[i] == if s[i] == Some(k) then None else s[i]
  {
    if |s| == 0 then [] else [if s[0] == Some(k) then None else s[0]] + Erase(s[1..], k)
  }

  /** The counts of the labels `d`, added up. */
  function SumCounts<K(==)>(d: seq<K>, s: seq<Option<K>>): nat
  {
    if |d| == 0 then 0 else CountOf(s, d[0]) + SumCounts(d[1..], s)
  }

  lemma {:induction false} EraseCounts<K>(s: seq<Option<K>>, k: K)
    ensures Present(s) == CountOf(s, k) + Present(Erase(s, k))
    ensures forall k' :: k' != k ==> CountOf(Erase(s, k), k') == CountOf(s, k')
  {
    if |s| > 0 {
      EraseCounts(s[1..], k);
      assert Erase(s, k)[1..] == Erase(s[1..], k);
    }
  }

  lemma {:induction false} SumCountsErase<K>(d: seq<K>, s: seq<Option<K>>, k: K)
    requires k !in d
    ensures SumCounts(d, Erase(s, k)) == SumCounts(d, s)
  {
    if |d| > 0 {
      EraseCounts(s, k);
      SumCountsErase(d[1..], s, k);
    }
  }

  lemma {:induction false} NothingPresent<K>(s: seq<Option<K>>)
    requires forall k :: Some(k) !in s
    ensures Present(s) == 0
  {
    if |s| > 0 {
      assert s[0] in s;
      assert forall k :: Some(k) in s[1..] ==> Some(k) in s;
      NothingPresent(s[1..]);
    }
  }

  /** Counting every label of a list that has each present value exactly once
      counts every present entry exactly once. */
  lemma {:induction false} SumCountsCovers<K>(d: seq<K>, s: seq<Option<K>>)
    requires NoDup(d)
    requires forall k :: Some(k) in s ==> k in d
    ensures SumCounts(d, s) == Present(s)
  {
    if |d| == 0 {
      NothingPresent(s);
    } else {
      var k0 := d[0];
      NoDupTail(d);
      EraseCounts(s, k0);
      SumCountsErase(d[1..], s, k0);
      var e := Erase(s, k0);
      forall k | Some(k) in e ensures k in d[1..] {
        var i :| 0 <= i < |e| && e[i] == Some(k);
        assert s[i] == Some(k) && k != k0;
        assert d == [k0] + d[1..];
      }
      SumCountsCovers(d[1..], e);
    }
  }

  lemma {:induction false} PresentPositive<K>(s: seq<Option<K>>, i: int)
    requires 0 <= i < |s| && s[i].Some?
    ensures Present(s) > 0
  {
    if i > 0 {
      PresentPositive(s[1..], i - 1);
    }
  }

  /** Two sequences whose presence pattern is one's matches of `k` count alike. */
  lemma {:induction false} PresentMatches<V, K>(v: seq<Option<V>>, s: seq<Option<K>>, k: K)
    requires |v| == |s|
    requires forall i :: 0 <= i < |v| ==> (v[i].Some? <==> s[i] == Some(k))
    ensures Present(v) == CountOf(s, k)
  {
    if |v| > 0 {
      PresentMatches(v[1..], s[1..], k);
    }
  }

  // ------------------------------------------------------------- categories

  /** The observed labels in ascending order: the group keys of `groupby` (whose
      default `sort=True` orders them) and the row index after `sort_index`. */
  function Categories(s: seq<Option<string>>): (c: seq<string>)
    ensures multiset(c) == multiset(Distinct(s))
  {
    SortBy(Distinct(s), LexLe)
  }

  /** Each observed label exactly once, strictly ascending. */
  lemma CategoriesOrdered(s: seq<Option<string>>)
    ensures NoDup(Categories(s))
    ensures forall k :: k in Categories(s) <==> Some(k) in s
    ensures forall i, j :: 0 <= i < j < |Categories(s)| ==>
              LexLe(Categories(s)[i], Categories(s)[j]) && Categories(s)[i] != Categories(s)[j]
  {
    var c := Categories(s);
    NoDupPermutation(Distinct(s), c);
    LexLeTotalPreorder();
    SortBySorted(Distinct(s), LexLe);
    forall k ensures k in c <==> Some(k) in s {
      SortByMembers(Distinct(s), LexLe, k);
    }
    forall i, j | 0 <= i < j < |c| ensures c[i] != c[j] {
      NoDupAt(c, i, j);
    }
  }

  // ------------------------------------------------------------- observations

  /** Within rows given as (label, value) pairs: the values of the rows labelled `k`,
      every other row's value missing. */
  function Within<V>(obs: seq<(Option<string>, Option<V>)>, k: string): (r: seq<Option<V>>)
    ensures |r| == |obs|
    ensures forall i :: 0 <= i < |obs| ==> r[i] == if obs[i].0 == Some(k) then obs[i].1 else None
  {
    if |obs| == 0 then [] else [if obs[0].0 == Some(k) then obs[0].1 else None] + Within(obs[1..], k)
  }

  /** The label of every row, `None` where it is missing. */
  function LabelsOf<V>(obs: seq<(Option<string>, Option<V>)>): (r: seq<Option<string>>)
    ensures |r| == |obs|
    ensures forall i :: 0 <= i < |obs| ==> r[i] == obs[i].0
  {
    if |obs| == 0 then [] else [obs[0].0] + LabelsOf(obs[1..])
  }

  /** The label of every row whose value is present. */
  function LabelsWithValue<V>(obs: seq<(Option<string>, Option<V>)>): (r: seq<Option<string>>)
    ensures |r| == |obs|
    ensures forall i :: 0 <= i < |obs| ==> r[i] == if obs[i].1.Some? then obs[i].0 else None
  {
    if |obs| == 0 then [] else [if obs[0].1.Some? then obs[0].0 else None] + LabelsWithValue(obs[1..])
  }

  /** The value of every row whose label is present. */
  function ValuesWithLabel<V>(obs: seq<(Option<string>, Option<V>)>): (r: seq<Option<V>>)
    ensures |r| == |obs|
    ensures forall i :: 0 <= i < |obs| ==> r[i] == if obs[i].0.Some? then obs[i].1 else None
  {
    if |obs| == 0 then [] else [if obs[0].0.Some? then obs[0].1 else None] + ValuesWithLabel(obs[1..])
  }

  /** The present values within `k` are the rows labelled `k` that have a value. */
  lemma WithinCount<V>(obs: seq<(Option<string>, Option<V>)>, k: string)
    ensures Present(Within(obs, k)) == CountOf(LabelsWithValue(obs), k)
  {
    PresentMatches(Within(obs, k), LabelsWithValue(obs), k);
  }

  /** Pairs up two columns row by row. */
  function Zip<A, B>(a: seq<A>, b: seq<B>): (r: seq<(A, B)>)
    ensures |r| == if |a| < |b| then |a| else |b|
    ensures forall i :: 0 <= i < |r| ==> r[i] == (a[i], b[i])
  {
    if |a| == 0 || |b| == 0 then [] else [(a[0], b[0])] + Zip(a[1..], b[1..])
  }

  // ------------------------------------------------------------- stability

  /** A statistic of a group's values that pandas computes; `None` for NaN. */
  type Statistic = seq<real> -> Option<real>

  /** `median` skips NaN and is NaN exactly for a group without values. */
  ghost predicate ValidMedian(median: Statistic)
  {
    forall v :: median(v).None? <==> |v| == 0
  }

  /** `std` (ddof = 1) is NaN exactly for a group of fewer than two values, and is
      never negative. */
  ghost predicate ValidStd(std: Statistic)
  {
    forall v :: (std(v).None? <==> |v| < 2) && (std(v).Some? ==> std(v).value >= 0.0)
  }

  /** One row of `groupby(cat_feature)[target].agg(["median", "std", "count"])`. */
  datatype GroupRow = GroupRow(key: string, median: Option<real>, std: Option<real>, count: nat)

  function RowKey(r: GroupRow): string
  {
    r.key
  }

  function RowCount(r: GroupRow): int
  {
    r.count
  }

  /** The aggregate row of the group `k`. */
  function Aggregate(obs: seq<(Option<string>, Option<real>)>, k: string, median: Statistic, std: Statistic): GroupRow
  {
    var v := Compact(Within(obs, k));
    GroupRow(k, median(v), std(v), |v|)
  }

  function AggregateAll(obs: seq<(Option<string>, Option<real>)>, groups: seq<string>, median: Statistic, std: Statistic): (r: seq<GroupRow>)
    ensures |r| == |groups|
    ensures forall i :: 0 <= i < |groups| ==> r[i] == Aggregate(obs, groups[i], median, std)
  {
    if |groups| == 0 then []
    else [Aggregate(obs, groups[0], median, std)] + AggregateAll(obs, groups[1..], median, std)
  }

  /** The order of `sort_values("median")`: ascending, NaN last. */
  predicate MedianBefore(a: GroupRow, b: GroupRow)
  {
    AscNaNLast(a.median, b.median)
  }

  /** Lines 212-213: the groups of the observed labels (missing labels dropped),
      each with the median, standard deviation and count of its present values,
      ordered by median. */
  function Stability(obs: seq<(Option<string>, Option<real>)>, median: Statistic, std: Statistic): (rows: seq<GroupRow>)
    ensures |rows| == |Distinct(LabelsOf(obs))|
  {
    SortBy(AggregateAll(obs, Categories(LabelsOf(obs)), median, std), MedianBefore)
  }

  lemma {:induction false} AggregateAllKeys(obs: seq<(Option<string>, Option<real>)>, groups: seq<string>, median: Statistic, std: Statistic)
    ensures MapSeq(RowKey, AggregateAll(obs, groups, median, std)) == groups
  {
  }

  lemma {:induction false} AggregateAllSum(obs: seq<(Option<string>, Option<real>)>, groups: seq<string>, median: Statistic, std: Statistic)
    ensures SumBy(AggregateAll(obs, groups, median, std), RowCount) == SumCounts(groups, LabelsWithValue(obs))
  {
    if |groups| > 0 {
      AggregateAllSum(obs, groups[1..], median, std);
      WithinCount(obs, groups[0]);
      assert AggregateAll(obs, groups, median, std)[1..] == AggregateAll(obs, groups[1..], median, std);
    }
  }

  /** The stability table: one row per distinct observed category; ascending
      median with NaN last; each count is the number of rows of that category whose
      target is present, so the counts add up to all such rows; a group without
      values has no median and a group of fewer than two values has no std. */
  lemma StabilityProperties(obs: seq<(Option<string>, Option<real>)>, median: Statistic, std: Statistic)
    requires ValidMedian(median) && ValidStd(std)
    ensures var rows := Stability(obs, median, std);
      && NoDup(MapSeq(RowKey, rows))
      && (forall k :: k in MapSeq(RowKey, rows) <==> Some(k) in LabelsOf(obs))
      && Sorted(rows, MedianBefore)
      && (forall r :: r in rows ==> r == Aggregate(obs, r.key, median, std))
      && (forall r :: r in rows ==> r.count == CountOf(LabelsWithValue(obs), r.key))
      && (forall r :: r in rows ==> (r.median.None? <==> r.count == 0) && (r.std.None? <==> r.count < 2))
      && SumBy(rows, RowCount) == Present(LabelsWithValue(obs))
  {
    StabilityKeys(obs, median, std);
    StabilityOrder(obs, median, std);
    StabilityRows(obs, median, std);
    StabilityTotal(obs, median, std);
  }

  lemma StabilityKeys(obs: seq<(Option<string>, Option<real>)>, median: Statistic, std: Statistic)
    ensures NoDup(MapSeq(RowKey, Stability(obs, median, std)))
    ensures forall k :: k in MapSeq(RowKey, Stability(obs, median, std)) <==> Some(k) in LabelsOf(obs)
  {
    var groups := Categories(LabelsOf(obs));
    var all := AggregateAll(obs, groups, median, std);
    var keys := MapSeq(RowKey, Stability(obs, median, std));
    CategoriesOrdered(LabelsOf(obs));
    AggregateAllKeys(obs, groups, median, std);
    SortByMapMultiset(all, MedianBefore, RowKey);
    NoDupPermutation(groups, keys);
    forall k ensures k in keys <==> Some(k) in LabelsOf(obs) {
      assert k in keys <==> k in multiset(keys);
      assert k in groups <==> k in multiset(groups);
    }
  }

  lemma StabilityOrder(obs: seq<(Option<string>, Option<real>)>, median: Statistic, std: Statistic)
    ensures Sorted(Stability(obs, median, std), MedianBefore)
  {
    SortBySorted(AggregateAll(obs, Categories(LabelsOf(obs)), median, std), MedianBefore);
  }

  lemma StabilityRows(obs: seq<(Option<string>, Option<real>)>, median: Statistic, std: Statistic)
    requires ValidMedian(median) && ValidStd(std)
    ensures forall r :: r in Stability(obs, median, std) ==>
      && r == Aggregate(obs, r.key, median, std)
      && r.count == CountOf(LabelsWithValue(obs), r.key)
      && (r.median.None? <==> r.count == 0) && (r.std.None? <==> r.count < 2)
  {
    forall r | r in Stability(obs, median, std)
      ensures r == Aggregate(obs, r.key, median, std)
      ensures r.count == CountOf(LabelsWithValue(obs), r.key)
      ensures (r.median.None? <==> r.count == 0) && (r.std.None? <==> r.count < 2)
    {
      StabilityRow(obs, median, std, r);
      AggregateRow(obs, r.key, median, std);
    }
  }

  lemma StabilityRow(obs: seq<(Option<string>, Option<real>)>, median: Statistic, std: Statistic, r: GroupRow)
    requires ValidMedian(median) && ValidStd(std)
    requires r in Stability(obs, median, std)
    ensures r == Aggregate(obs, r.key, median, std)
  {
    var groups := Categories(LabelsOf(obs));
    var all := AggregateAll(obs, groups, median, std);
    SortByMembers(all, MedianBefore, r);
    var i :| 0 <= i < |all| && all[i] == r;
  }

  /** A group's row counts its present target values; the median is missing
      exactly for an empty group, the std exactly below two values. */
  lemma AggregateRow(obs: seq<(Option<string>, Option<real>)>, k: string, median: Statistic, std: Statistic)
    requires ValidMedian(median) && ValidStd(std)
    ensures Aggregate(obs, k, median, std).count == CountOf(LabelsWithValue(obs), k)
    ensures Aggregate(obs, k, median, std).median.None? <==> Aggregate(obs, k, median, std).count == 0
    ensures Aggregate(obs, k, median, std).std.None? <==> Aggregate(obs, k, median, std).count < 2
  {
    WithinCount(obs, k);
  }

  lemma StabilityTotal(obs: seq<(Option<string>, Option<real>)>, median: Statistic, std: Statistic)
    ensures SumBy(Stability(obs, median, std), RowCount) == Present(LabelsWithValue(obs))
  {
    var groups := Categories(LabelsOf(obs));
    var all := AggregateAll(obs, groups, median, std);
    CategoriesOrdered(LabelsOf(obs));
    SortBySum(all, MedianBefore, RowCount);
    AggregateAllSum(obs, groups, median, std);
    forall k | Some(k) in LabelsWithValue(obs) ensures k in groups {
      var i :| 0 <= i < |obs| && LabelsWithValue(obs)[i] == Some(k);
      assert LabelsOf(obs)[i] == Some(k);
    }
    SumCountsCovers(groups, LabelsWithValue(obs));
  }

  // ------------------------------------------------------------- impact

  /** One bar of the impact chart: a category and its median target. */
  datatype Bar = Bar(category: string, value: Option<real>)

  function MedianBar(r: GroupRow): Bar
  {
    Bar(r.key, r.median)
  }

  function MediansAll(obs: seq<(Option<string>, Option<real>)>, groups: seq<string>, median: Statistic): (r: seq<Bar>)
    ensures |r| == |groups|
  {
    if |groups| == 0 then []
    else [Bar(groups[0], median(Compact(Within(obs, groups[0]))))] + MediansAll(obs, groups[1..], median)
  }

  /** The order of `sort_values()` on the median Series: ascending, NaN last. */
  predicate ValueBefore(a: Bar, b: Bar)
  {
    AscNaNLast(a.value, b.value)
  }

  /** Line 201: the median target of every observed category, ascending. */
  function Impact(obs: seq<(Option<string>, Option<real>)>, median: Statistic): (bars: seq<Bar>)
    ensures |bars| == |Distinct(LabelsOf(obs))|
    ensures Sorted(bars, ValueBefore)
  {
    SortBySorted(MediansAll(obs, Categories(LabelsOf(obs)), median), ValueBefore);
    SortBy(MediansAll(obs, Categories(LabelsOf(obs)), median), ValueBefore)
  }

  lemma {:induction false} MediansAllAreBars(obs: seq<(Option<string>, Option<real>)>, groups: seq<string>, median: Statistic, std: Statistic)
    ensures MediansAll(obs, groups, median) == MapSeq(MedianBar, AggregateAll(obs, groups, median, std))
  {
    if |groups| > 0 {
      MediansAllAreBars(obs, groups[1..], median, std);
      assert AggregateAll(obs, groups, median, std)[1..] == AggregateAll(obs, groups[1..], median, std);
      assert MapSeq(MedianBar, AggregateAll(obs, groups, median, std))[1..]
          == MapSeq(MedianBar, AggregateAll(obs, groups[1..], median, std));
    }
  }

  /** The impact chart shows exactly the medians of the stability table, in the same
      order: one bar per category, and the same ranking by median. */
  lemma ImpactMatchesStability(obs: seq<(Option<string>, Option<real>)>, median: Statistic, std: Statistic)
    ensures Impact(obs, median) == MapSeq(MedianBar, Stability(obs, median, std))
  {
    var groups := Categories(LabelsOf(obs));
    MediansAllAreBars(obs, groups, median, std);
    SortByMap(AggregateAll(obs, groups, median, std), MedianBar, MedianBefore, ValueBefore);
  }

  // ------------------------------------------------------------- over the table

  /** A category label: the string of an object/category cell. */
  function LabelOf(c: Cell): Option<string>
  {
    if c.Text? then Some(c.s) else None
  }

  /** A target value as `median`/`std` see it; a boolean counts as 0 or 1. */
  function ValueOf(c: Cell): Option<real>
  {
    match c
    case Num(x) => Some(x)
    case Flag(b) => Some(if b then 1.0 else 0.0)
    case _ => None
  }

  /** The (category, target) pairs of `df.groupby(cat_feature)[target]`. The
      selectbox returns None when there are no categorical features. */
  function GroupObservations(t: Table, feature: Option<string>, target: string): (r: Result<seq<(Option<string>, Option<real>)>>)
    ensures r.Err? <==> feature.None? || feature.value !in Names(t.columns) || target !in Names(t.columns)
    ensures r.Ok? && WellFormed(t) ==> |r.value| == t.nrows
    ensures r.Ok? ==> (|r.value| <= |Lookup(t.columns, feature.value).value.cells|
                       && |r.value| <= |Lookup(t.columns, target).value.cells|)
    ensures r.Ok? ==> forall i :: 0 <= i < |r.value| ==>
      r.value[i] == (LabelOf(Lookup(t.columns, feature.value).value.cells[i]), ValueOf(Lookup(t.columns, target).value.cells[i]))
  {
    if feature.None? then Err(NoSelection)
    else
      match (Lookup(t.columns, feature.value), Lookup(t.columns, target))
      case (None, _) => Err(KeyNotFound(feature.value))
      case (_, None) => Err(KeyNotFound(target))
      case (Some(f), Some(tc)) => Ok(Zip(MapSeq(LabelOf, f.cells), MapSeq(ValueOf, tc.cells)))
  }
}

/** The "Correlation & Risk" tab for a numeric target: the top-K ranking against the
    target, the two-feature redundancy check and the multicollinearity filter. */
module Correlation {
  import opened Basics
  import opened Order
  import opened Frame
  import opened Schema

  /** The Pearson coefficient pandas computes for two columns (over the rows where
      both are present), `None` for NaN. The floating-point computation is not
      modelled; it is a parameter. */
  type Pearson = (seq<Cell>, seq<Cell>) -> Option<real>

  /** What `DataFrame.corr` guarantees of its matrix: it is symmetric, a column
      against itself gives 1.0 (or NaN when the column is constant or empty), and
      every coefficient lies in [-1, 1]. */
  ghost predicate ValidPearson(p: Pearson)
  {
    && (forall x, y :: p(x, y) == p(y, x))
    && (forall x :: p(x, x).None? || p(x, x) == Some(1.0))
    && (forall x, y :: p(x, y).Some? ==> -1.0 <= p(x, y).value <= 1.0)
  }

  /** One entry of a Series of coefficients: its index label and its value. */
  datatype Ranked<K> = Ranked(key: K, coef: Option<real>)

  /** The order of `sort_values(ascending=False)` on a Series of coefficients. */
  predicate CoefBefore<K>(a: Ranked<K>, b: Ranked<K>)
  {
    DescNaNLast(a.coef, b.coef)
  }

  lemma CoefBeforeTotalPreorder<K(!new)>()
    ensures TotalPreorder(CoefBefore<K>)
  {
  }

  function KeyOf<K>(e: Ranked<K>): K
  {
    e.key
  }

  /** The index labels of a Series, in order. */
  function Keys<K>(s: seq<Ranked<K>>): seq<K>
  {
    MapSeq(KeyOf<K>, s)
  }

  // ---------------------------------------------------------------- top-K ranking

  /** `.corr()[target]`: every column's coefficient with the target, in table order. */
  function CorrWith(cols: seq<Column>, target: Column, p: Pearson): (r: seq<Ranked<string>>)
    ensures |r| == |cols|
    ensures forall i :: 0 <= i < |cols| ==> r[i] == Ranked(cols[i].name, p(cols[i].cells, target.cells))
  {
    if |cols| == 0 then [] else [Ranked(cols[0].name, p(cols[0].cells, target.cells))] + CorrWith(cols[1..], target, p)
  }

  /** `Series.drop(label)`: every entry with that index label removed. */
  function DropKey(s: seq<Ranked<string>>, key: string): seq<Ranked<string>>
  {
    if |s| == 0 then [] else (if s[0].key == key then [] else [s[0]]) + DropKey(s[1..], key)
  }

  /** `Series.head(k)`. */
  function Head<T>(s: seq<T>, k: nat): (r: seq<T>)
  {
    if k < |s| then s[..k] else s
  }

  /** `.sort_values(ascending=False).head(k)`. */
  function Rank(series: seq<Ranked<string>>, k: nat): seq<Ranked<string>>
  {
    Head(SortBy(series, CoefBefore<string>), k)
  }

  /** Lines 137-143 as written: the correlation matrix of the int64/float64 columns,
      the target's column of it, the target dropped, sorted, the first k kept.
      Indexing the matrix by the target raises when the target is not itself an
      int64/float64 column. */
  function TopK(t: Table, target: string, k: nat, p: Pearson): (r: Result<seq<Ranked<string>>>)
    ensures r.Err? <==> target !in Names(Select(t.columns, Int64Float64))
    ensures r.Err? ==> r.error == KeyNotFound(target)
  {
    var sel := Select(t.columns, Int64Float64);
    match Lookup(sel, target)
    case None => Err(KeyNotFound(target))
    case Some(tc) => Ok(Rank(DropKey(CorrWith(sel, tc, p), target), k))
  }

  /** The ranking the numeric branch evidently intends: every numeric feature
      (`num_features`) against the target, so that a target the dashboard calls
      numeric always has a ranking. */
  function TopKOfFeatures(t: Table, target: string, k: nat, p: Pearson): (r: Result<seq<Ranked<string>>>)
    ensures r.Err? <==> target !in Names(t.columns)
  {
    match Lookup(t.columns, target)
    case None => Err(KeyNotFound(target))
    case Some(tc) => Ok(Rank(CorrWith(FeatureColumns(t.columns, Number, target), tc, p), k))
  }

  /** What any ranking guarantees: at most k entries, taken from the series, in
      descending order with NaN last, every entry left out ranking no higher than
      every entry kept, and the whole series when k covers it. */
  lemma RankProperties(series: seq<Ranked<string>>, k: nat)
    ensures |Rank(series, k)| == if k < |series| then k else |series|
    ensures Sorted(Rank(series, k), CoefBefore<string>)
    ensures forall i, j :: 0 <= i < j < |Rank(series, k)| && Rank(series, k)[i].coef.None? ==> Rank(series, k)[j].coef.None?
    ensures multiset(Rank(series, k)) <= multiset(series)
    ensures forall e, x :: e in series && e !in Rank(series, k) && x in Rank(series, k) ==> CoefBefore(x, e)
    ensures k >= |series| ==> multiset(Rank(series, k)) == multiset(series)
  {
    RankShape(series, k);
    RankDominance(series, k);
  }

  lemma RankShape(series: seq<Ranked<string>>, k: nat)
    ensures |Rank(series, k)| == if k < |series| then k else |series|
    ensures Sorted(Rank(series, k), CoefBefore<string>)
    ensures forall i, j :: 0 <= i < j < |Rank(series, k)| && Rank(series, k)[i].coef.None? ==> Rank(series, k)[j].coef.None?
    ensures multiset(Rank(series, k)) <= multiset(series)
    ensures k >= |series| ==> multiset(Rank(series, k)) == multiset(series)
  {
    var sorted := SortBy(series, CoefBefore<string>);
    CoefBeforeTotalPreorder<string>();
    SortBySorted(series, CoefBefore<string>);
    var r := Rank(series, k);
    assert r == sorted[..|r|];
    assert sorted == r + sorted[|r|..];
    assert multiset(sorted) == multiset(r) + multiset(sorted[|r|..]);
  }

  /** Every entry `head` leaves out ranks no higher than every entry it keeps. */
  lemma RankDominance(series: seq<Ranked<string>>, k: nat)
    ensures forall e, x :: e in series && e !in Rank(series, k) && x in Rank(series, k) ==> CoefBefore(x, e)
  {
    var sorted := SortBy(series, CoefBefore<string>);
    CoefBeforeTotalPreorder<string>();
    SortBySorted(series, CoefBefore<string>);
    var r := Rank(series, k);
    assert forall q :: 0 <= q < |r| ==> sorted[q] == r[q];
    forall e, x | e in series && e !in r && x in r ensures CoefBefore(x, e) {
      assert e in multiset(sorted);
      var m :| 0 <= m < |sorted| && sorted[m] == e;
      var n :| 0 <= n < |r| && r[n] == x;
      assert sorted[n] == x;
      assert n < m;
    }
  }

  lemma {:induction false} DropKeyCorrWith(cols: seq<Column>, sel: Selection, target: string, tc: Column, p: Pearson)
    ensures DropKey(CorrWith(Select(cols, sel), tc, p), target) == CorrWith(FeatureColumns(cols, sel, target), tc, p)
  {
    if |cols| > 0 {
      var c := cols[0];
      var rest := cols[1..];
      DropKeyCorrWith(rest, sel, target, tc, p);
      var e := Ranked(c.name, p(c.cells, tc.cells));
      if Selects(sel, c.dtype) {
        var s := Select(cols, sel);
        assert s == [c] + Select(rest, sel);
        var cw := CorrWith(s, tc, p);
        assert cw[0] == e;
        assert cw[1..] == CorrWith(Select(rest, sel), tc, p);
        assert DropKey(cw, target) == (if c.name == target then [] else [e]) + DropKey(cw[1..], target);
        if c.name != target {
          var f := FeatureColumns(cols, sel, target);
          assert f == [c] + FeatureColumns(rest, sel, target);
          assert CorrWith(f, tc, p) == [e] + CorrWith(FeatureColumns(rest, sel, target), tc, p);
        } else {
          assert FeatureColumns(cols, sel, target) == FeatureColumns(rest, sel, target);
          assert DropKey(cw, target) == DropKey(CorrWith(Select(rest, sel), tc, p), target);
        }
      } else {
        assert Select(cols, sel) == Select(rest, sel);
        assert FeatureColumns(cols, sel, target) == FeatureColumns(rest, sel, target);
      }
    }
  }

  /** A selection loses exactly the target's column when the target is among it. */
  lemma {:induction false} FeatureColumnsCount(cols: seq<Column>, sel: Selection, target: string)
    requires UniqueNames(cols)
    ensures |FeatureColumns(cols, sel, target)| ==
      |Select(cols, sel)| - (if target in Names(Select(cols, sel)) then 1 else 0)
  {
    if |cols| > 0 {
      var rest := cols[1..];
      UniqueTail(cols);
      FeatureColumnsCount(rest, sel, target);
      var head := if Selects(sel, cols[0].dtype) then [cols[0]] else [];
      assert Select(cols, sel) == head + Select(rest, sel);
      NamesAppend(head, Select(rest, sel));
      if Selects(sel, cols[0].dtype) && cols[0].name == target {
        HeadNotSelectedAgain(cols, sel);
      }
    }
  }

  /** The first column's label is not among the selected labels of the rest. */
  lemma HeadNotSelectedAgain(cols: seq<Column>, sel: Selection)
    requires UniqueNames(cols) && |cols| > 0
    ensures cols[0].name !in Names(Select(cols[1..], sel))
  {
    var rest := cols[1..];
    SelectMembers(rest, sel);
    forall q | 0 <= q < |Select(rest, sel)| ensures Names(Select(rest, sel))[q] != cols[0].name {
      assert Select(rest, sel)[q] in Select(rest, sel);
      var i :| 0 <= i < |rest| && rest[i] == Select(rest, sel)[q];
      assert cols[0].name != cols[i + 1].name;
    }
  }

  /** The column of a unique label is the one found by looking it up. */
  lemma LookupUnique(cols: seq<Column>, i: int)
    requires UniqueNames(cols) && 0 <= i < |cols|
    ensures Lookup(cols, cols[i].name) == Some(cols[i])
  {
    var c := Lookup(cols, cols[i].name).value;
    var j :| 0 <= j < |cols| && cols[j] == c;
    UniqueAt(cols, i, j);
  }

  /** Ranking the coefficients of distinct columns against one column. */
  lemma RankOfColumns(feats: seq<Column>, tc: Column, k: nat, p: Pearson)
    requires NoDup(Names(feats))
    ensures var r := Rank(CorrWith(feats, tc, p), k);
      && (forall e :: e in r ==> (exists c :: c in feats && e == Ranked(c.name, p(c.cells, tc.cells))))
      && |r| == (if k < |feats| then k else |feats|)
      && Sorted(r, CoefBefore<string>)
      && (k >= |feats| ==> multiset(Keys(r)) == multiset(Names(feats)))
      && NoDup(Keys(r))
  {
    var series := CorrWith(feats, tc, p);
    RankShape(series, k);
    RankedColumns(feats, tc, k, p);
    assert Keys(series) == Names(feats);
    RankKeys(series, k);
  }

  /** Every ranked entry is one of the columns with its coefficient. */
  lemma RankedColumns(feats: seq<Column>, tc: Column, k: nat, p: Pearson)
    ensures forall e :: e in Rank(CorrWith(feats, tc, p), k) ==>
      (exists c :: c in feats && e == Ranked(c.name, p(c.cells, tc.cells)))
  {
    var series := CorrWith(feats, tc, p);
    var r := Rank(series, k);
    RankShape(series, k);
    forall e | e in r ensures exists c :: c in feats && e == Ranked(c.name, p(c.cells, tc.cells)) {
      assert e in multiset(r);
      assert e in multiset(series);
      var q :| 0 <= q < |series| && series[q] == e;
      assert feats[q] in feats;
    }
  }

  /** Top-K as written: the target is never ranked; every entry is a non-target
      int64/float64 column with its coefficient against the target; the length is
      min(k, number of int64/float64 columns - 1); the order is descending with
      NaN last; and when k covers the selection every feature appears exactly once. */
  lemma TopKProperties(t: Table, target: string, k: nat, p: Pearson)
    requires WellFormed(t) && TopK(t, target, k, p).Ok?
    ensures var r := TopK(t, target, k, p).value;
      var sel := Select(t.columns, Int64Float64);
      var tc := Lookup(sel, target).value;
      var n := |sel| - 1;
      && (forall e :: e in r ==> e.key != target)
      && (forall e :: e in r ==>
            (exists c :: c in FeatureColumns(t.columns, Int64Float64, target) && e == Ranked(c.name, p(c.cells, tc.cells))))
      && |r| == (if k < n then k else n)
      && Sorted(r, CoefBefore<string>)
      && (k >= n ==> multiset(Keys(r)) == multiset(Names(FeatureColumns(t.columns, Int64Float64, target))))
      && NoDup(Keys(r))
    ensures forall e, x ::
              && e in CorrWith(FeatureColumns(t.columns, Int64Float64, target), Lookup(Select(t.columns, Int64Float64), target).value, p)
              && e !in TopK(t, target, k, p).value && x in TopK(t, target, k, p).value
              ==> CoefBefore(x, e)
  {
    TopKDominance(t, target, k, p);
    var sel := Select(t.columns, Int64Float64);
    var tc := Lookup(sel, target).value;
    var feats := FeatureColumns(t.columns, Int64Float64, target);
    DropKeyCorrWith(t.columns, Int64Float64, target, tc, p);
    FeatureColumnsCount(t.columns, Int64Float64, target);
    FeaturesNoDup(t.columns, Int64Float64, target);
    RankOfColumns(feats, tc, k, p);
    var r := TopK(t, target, k, p).value;
    FeatureColumnsMembers(t.columns, Int64Float64, target);
    forall e | e in r ensures e.key != target {
      var c :| c in feats && e == Ranked(c.name, p(c.cells, tc.cells));
    }
  }

  /** What makes the top-K the top: every feature left out ranks no higher than
      every feature kept. */
  lemma TopKDominance(t: Table, target: string, k: nat, p: Pearson)
    requires TopK(t, target, k, p).Ok?
    ensures forall e, x ::
              && e in CorrWith(FeatureColumns(t.columns, Int64Float64, target), Lookup(Select(t.columns, Int64Float64), target).value, p)
              && e !in TopK(t, target, k, p).value && x in TopK(t, target, k, p).value
              ==> CoefBefore(x, e)
  {
    var sel := Select(t.columns, Int64Float64);
    var tc := Lookup(sel, target).value;
    DropKeyCorrWith(t.columns, Int64Float64, target, tc, p);
    RankDominance(CorrWith(FeatureColumns(t.columns, Int64Float64, target), tc, p), k);
  }

  /** Feature labels are distinct. */
  lemma FeaturesNoDup(cols: seq<Column>, sel: Selection, target: string)
    requires UniqueNames(cols)
    ensures NoDup(Names(FeatureColumns(cols, sel, target)))
  {
    var f := Names(FeatureColumns(cols, sel, target));
    FeatureColumnsInOrder(cols, sel, target);
    forall x | x in f ensures multiset(f)[x] == 1 {
      OrderedIsNoDup(cols, f, x);
    }
  }

  lemma {:induction false} OrderedIsNoDup(cols: seq<Column>, f: seq<string>, x: string)
    requires InTableOrder(cols, f) && x in f
    ensures multiset(f)[x] == 1
  {
    if |f| > 0 {
      assert f == [f[0]] + f[1..];
      assert InTableOrder(cols, f[1..]) by {
        forall p, q | 0 <= p < q < |f[1..]| ensures IndexOf(cols, f[1..][p]) < IndexOf(cols, f[1..][q]) {
          assert f[1..][p] == f[p + 1] && f[1..][q] == f[q + 1];
        }
      }
      forall q | 0 <= q < |f[1..]| ensures f[1..][q] != f[0] {
        assert IndexOf(cols, f[0]) < IndexOf(cols, f[q + 1]);
      }
      assert f[0] !in f[1..];
      if x != f[0] {
        OrderedIsNoDup(cols, f[1..], x);
      }
    }
  }

  /** The kept keys are distinct when the series' keys are, and are all of them
      when k covers the series. */
  lemma RankKeys(series: seq<Ranked<string>>, k: nat)
    requires NoDup(Keys(series))
    ensures NoDup(Keys(Rank(series, k)))
    ensures k >= |series| ==> multiset(Keys(Rank(series, k))) == multiset(Keys(series))
  {
    var sorted := SortBy(series, CoefBefore<string>);
    SortByMapMultiset(series, CoefBefore<string>, KeyOf<string>);
    NoDupPermutation(Keys(series), Keys(sorted));
    if k < |sorted| {
      assert Keys(Rank(series, k)) == Keys(sorted)[..k];
      NoDupPrefix(Keys(sorted), k);
    }
  }

  /** Where the as-written ranking succeeds on a table whose numeric columns are
      all 64-bit, it is the intended one. */
  lemma TopKAgreesOn64BitTables(t: Table, target: string, k: nat, p: Pearson)
    requires WellFormed(t) && TopK(t, target, k, p).Ok?
    requires forall i :: 0 <= i < |t.columns| ==> !t.columns[i].dtype.NarrowInt? && !t.columns[i].dtype.NarrowFloat?
    ensures TopKOfFeatures(t, target, k, p) == TopK(t, target, k, p)
  {
    var sel := Select(t.columns, Int64Float64);
    var tc := Lookup(sel, target).value;
    SelectMembers(t.columns, Int64Float64);
    var i :| 0 <= i < |t.columns| && t.columns[i] == tc;
    LookupUnique(t.columns, i);
    DropKeyCorrWith(t.columns, Int64Float64, target, tc, p);
    SameFeatures(t.columns, target);
  }

  lemma {:induction false} SameFeatures(cols: seq<Column>, target: string)
    requires forall i :: 0 <= i < |cols| ==> !cols[i].dtype.NarrowInt? && !cols[i].dtype.NarrowFloat?
    ensures FeatureColumns(cols, Number, target) == FeatureColumns(cols, Int64Float64, target)
  {
    if |cols| > 0 {
      SameFeatures(cols[1..], target);
    }
  }

  /** The intended ranking never fails on an existing target, and keeps every
      guarantee of the as-written one, over `num_features`. */
  lemma TopKOfFeaturesProperties(t: Table, target: string, k: nat, p: Pearson)
    requires WellFormed(t) && target in Names(t.columns)
    ensures TopKOfFeatures(t, target, k, p).Ok?
    ensures var r := TopKOfFeatures(t, target, k, p).value;
      var n := |NumFeatures(t, target)|;
      && (forall e :: e in r ==> e.key != target && e.key in NumFeatures(t, target))
      && (forall e :: e in r ==>
            (exists c :: c in FeatureColumns(t.columns, Number, target)
                      && e == Ranked(c.name, p(c.cells, Lookup(t.columns, target).value.cells))))
      && |r| == (if k < n then k else n)
      && Sorted(r, CoefBefore<string>)
      && (k >= n ==> multiset(Keys(r)) == multiset(NumFeatures(t, target)))
      && NoDup(Keys(r))
    ensures forall e, x ::
              && e in CorrWith(FeatureColumns(t.columns, Number, target), Lookup(t.columns, target).value, p)
              && e !in TopKOfFeatures(t, target, k, p).value && x in TopKOfFeatures(t, target, k, p).value
              ==> CoefBefore(x, e)
  {
    RankDominance(CorrWith(FeatureColumns(t.columns, Number, target), Lookup(t.columns, target).value, p), k);
    var tc := Lookup(t.columns, target).value;
    var feats := FeatureColumns(t.columns, Number, target);
    FeaturesNoDup(t.columns, Number, target);
    RankOfColumns(feats, tc, k, p);
    FeatureColumnsMembers(t.columns, Number, target);
    var r := TopKOfFeatures(t, target, k, p).value;
    forall e | e in r ensures e.key != target && e.key in NumFeatures(t, target) {
      var c :| c in feats && e == Ranked(c.name, p(c.cells, tc.cells));
    }
  }

  /** A bool column is numeric to `is_numeric_dtype`, so it can be chosen as a
      numeric target, but it is not an int64/float64 column: the ranking as
      written raises, the intended one does not. */
  lemma BoolTargetRaises(p: Pearson)
    ensures
      var t := Table([Column("x", Float64, [Num(1.0), Num(2.0)]),
                      Column("flag", Bool, [Flag(true), Flag(false)])], 2);
      && Classify(t, "flag").Ok? && Classify(t, "flag").value.kind == Numeric
      && TopK(t, "flag", 10, p) == Err(KeyNotFound("flag"))
      && TopKOfFeatures(t, "flag", 10, p).Ok?
  {
    var x := Column("x", Float64, [Num(1.0), Num(2.0)]);
    var flag := Column("flag", Bool, [Flag(true), Flag(false)]);
    var cols := [x, flag];
    assert cols[1..] == [flag] && [flag][1..] == [];
    assert Select([flag], Int64Float64) == [] + Select([flag][1..], Int64Float64);
    assert Select(cols, Int64Float64) == [x] + Select([flag], Int64Float64);
    assert Names(cols)[1] == "flag";
    assert Names([x]) == ["x"];
    assert Lookup(cols, "flag") == Some(flag);
  }

  // ------------------------------------------------------- two-feature check

  /** The outcome of the "Feature Redundancy Check" for two selected features. */
  datatype PairCheck = SameFeature | Coefficient(coef: Option<real>)

  /** `if f1 != f2: df[[f1, f2]].corr().iloc[0, 1]`. Both selections come from
      `num_features`; an empty list makes both selectboxes return None. */
  function CheckPair(t: Table, f1: Option<string>, f2: Option<string>, p: Pearson): (r: Result<PairCheck>)
    ensures r == Ok(SameFeature) <==> f1 == f2
    ensures r.Ok? && r.value.Coefficient? ==> f1.Some? && f2.Some? && f1.value in Names(t.columns) && f2.value in Names(t.columns)
    ensures f1 != f2 && (f1.None? || f2.None?) ==> r == Err(NoSelection)
    ensures (f1 != f2 && f1.Some? && f2.Some? && f1.value !in Names(t.columns))
              ==> r == Err(KeyNotFound(f1.value))
    ensures (f1 != f2 && f1.Some? && f2.Some? && f1.value in Names(t.columns) && f2.value !in Names(t.columns))
              ==> r == Err(KeyNotFound(f2.value))
    ensures (f1 != f2 && f1.Some? && f2.Some? && f1.value in Names(t.columns) && f2.value in Names(t.columns))
              ==> r == Ok(Coefficient(p(Lookup(t.columns, f1.value).value.cells, Lookup(t.columns, f2.value).value.cells)))
  {
    if f1 == f2 then Ok(SameFeature)
    else if f1.None? || f2.None? then Err(NoSelection)
    else
      match (Lookup(t.columns, f1.value), Lookup(t.columns, f2.value))
      case (Some(a), Some(b)) => Ok(Coefficient(p(a.cells, b.cells)))
      case (None, _) => Err(KeyNotFound(f1.value))
      case (_, None) => Err(KeyNotFound(f2.value))
  }

  /** The check does not depend on which selectbox holds which feature. */
  lemma CheckPairSymmetric(t: Table, f1: Option<string>, f2: Option<string>, p: Pearson)
    requires ValidPearson(p)
    requires CheckPair(t, f1, f2, p).Ok?
    ensures CheckPair(t, f2, f1, p) == CheckPair(t, f1, f2, p)
  {
  }

  /** The coefficient shown for two distinct features is a correlation: within
      [-1, 1], and its magnitude at most 1. */
  lemma CheckPairBounded(t: Table, f1: string, f2: string, p: Pearson)
    requires ValidPearson(p)
    requires CheckPair(t, Some(f1), Some(f2), p).Ok? && CheckPair(t, Some(f1), Some(f2), p).value.Coefficient?
    requires CheckPair(t, Some(f1), Some(f2), p).value.coef.Some?
    ensures -1.0 <= CheckPair(t, Some(f1), Some(f2), p).value.coef.value <= 1.0
    ensures AbsCoef(CheckPair(t, Some(f1), Some(f2), p).value.coef).value <= 1.0
  {
    var a := Lookup(t.columns, f1).value;
    var b := Lookup(t.columns, f2).value;
    assert CheckPair(t, Some(f1), Some(f2), p).value.coef == p(a.cells, b.cells);
  }

  // ------------------------------------------------------- multicollinearity

  function AbsCoef(x: Option<real>): (r: Option<real>)
    ensures r.Some? <==> x.Some?
    ensures r.Some? ==> r.value >= 0.0 && (r.value == x.value || r.value == -x.value)
  {
    match x
    case None => None
    case Some(v) => Some(if v < 0.0 then -v else v)
  }

  /** `(m > 0.8) & (m < 1.0)`: NaN compares false on both sides. */
  predicate InBand(v: Option<real>)
  {
    v.Some? && 0.8 < v.value < 1.0
  }

  /** One cell of `corr_matrix = df[num_features].corr().abs()`, labelled by its row and column. */
  function MatrixEntry(a: Column, b: Column, p: Pearson): Ranked<(string, string)>
  {
    Ranked((a.name, b.name), AbsCoef(p(a.cells, b.cells)))
  }

  /** Row `a` of `corr_matrix.where(band).stack()`: the masked cells become NaN and
      are dropped. */
  function StackRow(a: Column, cols: seq<Column>, p: Pearson): seq<Ranked<(string, string)>>
  {
    if |cols| == 0 then []
    else (if InBand(MatrixEntry(a, cols[0], p).coef) then [MatrixEntry(a, cols[0], p)] else [])
         + StackRow(a, cols[1..], p)
  }

  /** `.stack()` of the whole masked matrix, row by row. */
  function Stack(rows: seq<Column>, cols: seq<Column>, p: Pearson): seq<Ranked<(string, string)>>
  {
    if |rows| == 0 then [] else StackRow(rows[0], cols, p) + Stack(rows[1..], cols, p)
  }

  /** `df[num_features]`: the numeric feature columns, in table order. */
  function NumericFrame(t: Table, target: string): (r: seq<Column>)
    ensures Names(r) == NumFeatures(t, target)
  {
    FeatureColumns(t.columns, Number, target)
  }

  datatype Redundancy = NotEnoughFeatures | Pairs(pairs: seq<Ranked<(string, string)>>)

  /** Lines 177-188: with fewer than two numeric features nothing is computed;
      otherwise the in-band cells of the absolute correlation matrix of
      `df[num_features]`, sorted descending. */
  function RedundantPairs(t: Table, target: string, p: Pearson): (r: Redundancy)
    ensures r.NotEnoughFeatures? <==> |NumFeatures(t, target)| < 2
  {
    var feats := NumericFrame(t, target);
    if |NumFeatures(t, target)| < 2 then NotEnoughFeatures
    else Pairs(SortBy(Stack(feats, feats, p), CoefBefore<(string, string)>))
  }

  lemma {:induction false} StackRowHas(a: Column, cols: seq<Column>, p: Pearson, j: int)
    requires 0 <= j < |cols| && InBand(MatrixEntry(a, cols[j], p).coef)
    ensures MatrixEntry(a, cols[j], p) in StackRow(a, cols, p)
  {
    if j > 0 {
      StackRowHas(a, cols[1..], p, j - 1);
      assert cols[1..][j - 1] == cols[j];
    }
  }

  lemma {:induction false} StackRowOnly(a: Column, cols: seq<Column>, p: Pearson, e: Ranked<(string, string)>)
    requires e in StackRow(a, cols, p)
    ensures InBand(e.coef) && exists j :: 0 <= j < |cols| && e == MatrixEntry(a, cols[j], p)
  {
    var head := if InBand(MatrixEntry(a, cols[0], p).coef) then [MatrixEntry(a, cols[0], p)] else [];
    assert StackRow(a, cols, p) == head + StackRow(a, cols[1..], p);
    if e !in head {
      StackRowOnly(a, cols[1..], p, e);
      var j :| 0 <= j < |cols[1..]| && e == MatrixEntry(a, cols[1..][j], p);
      assert cols[1..][j] == cols[j + 1];
    }
  }

  /** Every in-band cell of the matrix is stacked. */
  lemma {:induction false} StackHas(rows: seq<Column>, cols: seq<Column>, p: Pearson, i: int, j: int)
    requires 0 <= i < |rows| && 0 <= j < |cols| && InBand(MatrixEntry(rows[i], cols[j], p).coef)
    ensures MatrixEntry(rows[i], cols[j], p) in Stack(rows, cols, p)
  {
    if i > 0 {
      StackHas(rows[1..], cols, p, i - 1, j);
      assert rows[1..][i - 1] == rows[i];
    } else {
      StackRowHas(rows[0], cols, p, j);
    }
  }

  /** Only in-band cells of the matrix are stacked. */
  lemma {:induction false} StackOnly(rows: seq<Column>, cols: seq<Column>, p: Pearson, e: Ranked<(string, string)>)
    requires e in Stack(rows, cols, p)
    ensures InBand(e.coef)
    ensures exists i, j :: 0 <= i < |rows| && 0 <= j < |cols| && e == MatrixEntry(rows[i], cols[j], p)
  {
    if e in StackRow(rows[0], cols, p) {
      StackRowOnly(rows[0], cols, p, e);
      var j :| 0 <= j < |cols| && e == MatrixEntry(rows[0], cols[j], p);
    } else {
      StackOnly(rows[1..], cols, p, e);
      var i, j :| 0 <= i < |rows[1..]| && 0 <= j < |cols| && e == MatrixEntry(rows[1..][i], cols[j], p);
      assert rows[1..][i] == rows[i + 1];
    }
  }

  /** A reported entry is an in-band cell of the features' matrix. */
  lemma Reported(t: Table, target: string, p: Pearson, e: Ranked<(string, string)>)
    requires RedundantPairs(t, target, p).Pairs? && e in RedundantPairs(t, target, p).pairs
    ensures InBand(e.coef)
    ensures exists i, j ::
              && 0 <= i < |NumericFrame(t, target)| && 0 <= j < |NumericFrame(t, target)|
              && e == MatrixEntry(NumericFrame(t, target)[i], NumericFrame(t, target)[j], p)
  {
    var f := NumericFrame(t, target);
    assert RedundantPairs(t, target, p).pairs == SortBy(Stack(f, f, p), CoefBefore<(string, string)>);
    SortByMembers(Stack(f, f, p), CoefBefore<(string, string)>, e);
    StackOnly(f, f, p, e);
  }

  /** An in-band cell of the features' matrix is reported. */
  lemma CellReported(t: Table, target: string, p: Pearson, i: int, j: int)
    requires RedundantPairs(t, target, p).Pairs?
    requires 0 <= i < |NumericFrame(t, target)| && 0 <= j < |NumericFrame(t, target)|
    requires InBand(MatrixEntry(NumericFrame(t, target)[i], NumericFrame(t, target)[j], p).coef)
    ensures MatrixEntry(NumericFrame(t, target)[i], NumericFrame(t, target)[j], p) in RedundantPairs(t, target, p).pairs
  {
    var f := NumericFrame(t, target);
    StackHas(f, f, p, i, j);
    assert RedundantPairs(t, target, p).pairs == SortBy(Stack(f, f, p), CoefBefore<(string, string)>);
    SortByMembers(Stack(f, f, p), CoefBefore<(string, string)>, MatrixEntry(f[i], f[j], p));
  }

  /** The feature columns carry distinct labels. */
  lemma FeaturesUnique(t: Table, target: string)
    requires WellFormed(t)
    ensures UniqueNames(NumericFrame(t, target))
  {
    var f := NumericFrame(t, target);
    FeaturesNoDup(t.columns, Number, target);
    forall i, j | 0 <= i < j < |f| ensures f[i].name != f[j].name {
      NoDupAt(Names(f), i, j);
    }
  }

  /** The multicollinearity report: every coefficient is strictly between 0.8 and
      1.0; no column is paired with itself; both labels are numeric features; (a, b)
      is reported exactly when (b, a) is; the order is descending with NaN last;
      no pair of labels is reported twice; and every in-band cell of the features' matrix is reported. */
  lemma RedundantPairsProperties(t: Table, target: string, p: Pearson)
    requires WellFormed(t) && ValidPearson(p)
    requires RedundantPairs(t, target, p).Pairs?
    ensures var r := RedundantPairs(t, target, p).pairs;
      && (forall e :: e in r ==> e.coef.Some? && 0.8 < e.coef.value < 1.0)
      && (forall e :: e in r ==> e.key.0 != e.key.1)
      && (forall e :: e in r ==> e.key.0 in NumFeatures(t, target) && e.key.1 in NumFeatures(t, target))
      && (forall e :: e in r ==> Ranked((e.key.1, e.key.0), e.coef) in r)
      && Sorted(r, CoefBefore<(string, string)>)
      && NoDup(Keys(r))
    ensures forall i, j ::
              (&& 0 <= i < |NumericFrame(t, target)| && 0 <= j < |NumericFrame(t, target)|
               && InBand(MatrixEntry(NumericFrame(t, target)[i], NumericFrame(t, target)[j], p).coef))
              ==> MatrixEntry(NumericFrame(t, target)[i], NumericFrame(t, target)[j], p) in RedundantPairs(t, target, p).pairs
  {
    var f := NumericFrame(t, target);
    var r := RedundantPairs(t, target, p).pairs;
    CoefBeforeTotalPreorder<(string, string)>();
    SortBySorted(Stack(f, f, p), CoefBefore<(string, string)>);
    ReportNoDup(t, target, p);
    forall e | e in r
      ensures e.coef.Some? && 0.8 < e.coef.value < 1.0
      ensures e.key.0 != e.key.1
      ensures e.key.0 in NumFeatures(t, target) && e.key.1 in NumFeatures(t, target)
      ensures Ranked((e.key.1, e.key.0), e.coef) in r
    {
      ReportedEntry(t, target, p, e);
    }
    forall i, j | 0 <= i < |f| && 0 <= j < |f| && InBand(MatrixEntry(f[i], f[j], p).coef)
      ensures MatrixEntry(f[i], f[j], p) in r
    {
      CellReported(t, target, p, i, j);
    }
  }

  /** Each in-band cell of the matrix is reported once: no two reported entries
      carry the same pair of labels. */
  lemma ReportNoDup(t: Table, target: string, p: Pearson)
    requires WellFormed(t)
    requires RedundantPairs(t, target, p).Pairs?
    ensures NoDup(Keys(RedundantPairs(t, target, p).pairs))
  {
    var f := NumericFrame(t, target);
    var s := Stack(f, f, p);
    FeaturesUnique(t, target);
    StackKeys(f, f, p);
    assert RedundantPairs(t, target, p).pairs == SortBy(s, CoefBefore<(string, string)>);
    SortByMapMultiset(s, CoefBefore<(string, string)>, KeyOf<(string, string)>);
    NoDupPermutation(Keys(s), Keys(SortBy(s, CoefBefore<(string, string)>)));
  }

  lemma KeysAppend<K>(a: seq<Ranked<K>>, b: seq<Ranked<K>>)
    ensures Keys(a + b) == Keys(a) + Keys(b)
  {
    assert forall i :: 0 <= i < |a + b| ==> Keys(a + b)[i] == (Keys(a) + Keys(b))[i];
  }

  /** A label that is not among the labels of `cols[1..]`, for distinct labels. */
  lemma HeadNameNotInTail(cols: seq<Column>)
    requires UniqueNames(cols) && |cols| > 0
    ensures cols[0].name !in Names(cols[1..])
  {
    forall j | 0 <= j < |cols| - 1 ensures Names(cols[1..])[j] != cols[0].name {
      assert cols[1..][j] == cols[j + 1];
    }
  }

  /** Row `a` of the stack carries a distinct pair of labels per entry, each
      naming `a` and a column of `cols`. */
  lemma {:induction false} StackRowKeys(a: Column, cols: seq<Column>, p: Pearson)
    requires UniqueNames(cols)
    ensures NoDup(Keys(StackRow(a, cols, p)))
    ensures forall e :: e in StackRow(a, cols, p) ==> e.key.0 == a.name && e.key.1 in Names(cols)
  {
    if |cols| > 0 {
      var head := if InBand(MatrixEntry(a, cols[0], p).coef) then [MatrixEntry(a, cols[0], p)] else [];
      var rest := StackRow(a, cols[1..], p);
      assert StackRow(a, cols, p) == head + rest;
      assert Names(cols) == [cols[0].name] + Names(cols[1..]);
      UniqueTail(cols);
      StackRowKeys(a, cols[1..], p);
      HeadNameNotInTail(cols);
      NoDupAppend(Keys(head), Keys(rest));
      KeysAppend(head, rest);
    }
  }

  /** The whole stack carries a distinct pair of labels per entry. */
  lemma {:induction false} StackKeys(rows: seq<Column>, cols: seq<Column>, p: Pearson)
    requires UniqueNames(rows) && UniqueNames(cols)
    ensures NoDup(Keys(Stack(rows, cols, p)))
    ensures forall e :: e in Stack(rows, cols, p) ==> e.key.0 in Names(rows)
  {
    if |rows| > 0 {
      var head := StackRow(rows[0], cols, p);
      var rest := Stack(rows[1..], cols, p);
      assert Stack(rows, cols, p) == head + rest;
      assert Names(rows) == [rows[0].name] + Names(rows[1..]);
      UniqueTail(rows);
      StackRowKeys(rows[0], cols, p);
      StackKeys(rows[1..], cols, p);
      HeadNameNotInTail(rows);
      NoDupAppend(Keys(head), Keys(rest));
      KeysAppend(head, rest);
    }
  }

  /** One reported pair: in the band, two different features, reported both ways. */
  lemma ReportedEntry(t: Table, target: string, p: Pearson, e: Ranked<(string, string)>)
    requires WellFormed(t) && ValidPearson(p)
    requires RedundantPairs(t, target, p).Pairs? && e in RedundantPairs(t, target, p).pairs
    ensures e.coef.Some? && 0.8 < e.coef.value < 1.0
    ensures e.key.0 != e.key.1
    ensures e.key.0 in NumFeatures(t, target) && e.key.1 in NumFeatures(t, target)
    ensures Ranked((e.key.1, e.key.0), e.coef) in RedundantPairs(t, target, p).pairs
  {
    var f := NumericFrame(t, target);
    FeaturesUnique(t, target);
    Reported(t, target, p, e);
    var i, j :| 0 <= i < |f| && 0 <= j < |f| && e == MatrixEntry(f[i], f[j], p);
    ReportedCell(t, target, p, e, i, j);
  }

  lemma ReportedCell(t: Table, target: string, p: Pearson, e: Ranked<(string, string)>, i: int, j: int)
    requires ValidPearson(p) && UniqueNames(NumericFrame(t, target))
    requires RedundantPairs(t, target, p).Pairs? && InBand(e.coef)
    requires 0 <= i < |NumericFrame(t, target)| && 0 <= j < |NumericFrame(t, target)|
    requires e == MatrixEntry(NumericFrame(t, target)[i], NumericFrame(t, target)[j], p)
    ensures e.key.0 != e.key.1
    ensures e.key.0 in NumFeatures(t, target) && e.key.1 in NumFeatures(t, target)
    ensures Ranked((e.key.1, e.key.0), e.coef) in RedundantPairs(t, target, p).pairs
  {
    var f := NumericFrame(t, target);
    assert Names(f)[i] == e.key.0 && Names(f)[j] == e.key.1;
    assert i != j;
    assert MatrixEntry(f[j], f[i], p) == Ranked((e.key.1, e.key.0), e.coef);
    CellReported(t, target, p, j, i);
  }

  /** In a table with distinct labels, a pair of labels names one cell. */
  lemma LabelsNameOneCell(f: seq<Column>, i: int, j: int, ia: int, ib: int)
    requires UniqueNames(f)
    requires 0 <= i < |f| && 0 <= j < |f| && 0 <= ia < |f| && 0 <= ib < |f|
    ensures f[i].name == f[ia].name ==> i == ia
    ensures f[j].name == f[ib].name ==> j == ib
  {
    if f[i].name == f[ia].name {
      UniqueAt(f, i, ia);
    }
    if f[j].name == f[ib].name {
      UniqueAt(f, j, ib);
    }
  }

  /** A column against itself gives 1.0 or NaN, never a value inside the band. */
  lemma SelfCoefOutOfBand(p: Pearson, x: seq<Cell>)
    requires ValidPearson(p)
    ensures !InBand(AbsCoef(p(x, x)))
  {
  }

  lemma NotTheIdenticalPair(f: seq<Column>, p: Pearson, ia: int, ib: int, i: int, j: int)
    requires UniqueNames(f)
    requires 0 <= i < |f| && 0 <= j < |f| && 0 <= ia < |f| && 0 <= ib < |f|
    requires f[ia].cells == f[ib].cells && !InBand(AbsCoef(p(f[ia].cells, f[ia].cells)))
    requires InBand(MatrixEntry(f[i], f[j], p).coef)
    ensures (f[i].name, f[j].name) != (f[ia].name, f[ib].name)
  {
    LabelsNameOneCell(f, i, j, ia, ib);
  }

  lemma IdenticalPairAbsent(t: Table, target: string, p: Pearson, f: seq<Column>, ia: int, ib: int, e: Ranked<(string, string)>)
    requires f == NumericFrame(t, target) && UniqueNames(f)
    requires RedundantPairs(t, target, p).Pairs?
    requires 0 <= ia < |f| && 0 <= ib < |f| && f[ia].cells == f[ib].cells && !InBand(AbsCoef(p(f[ia].cells, f[ia].cells)))
    requires e in RedundantPairs(t, target, p).pairs
    ensures e.key != (f[ia].name, f[ib].name)
  {
    Reported(t, target, p, e);
    var i, j :| 0 <= i < |f| && 0 <= j < |f| && e == MatrixEntry(f[i], f[j], p);
    NotTheIdenticalPair(f, p, ia, ib, i, j);
  }

  /** Two features with identical values are never reported: their coefficient is
      1.0 (or NaN), outside the band. */
  lemma IdenticalFeaturesNotReported(t: Table, target: string, p: Pearson, a: Column, b: Column)
    requires WellFormed(t) && ValidPearson(p)
    requires RedundantPairs(t, target, p).Pairs?
    requires a in NumericFrame(t, target) && b in NumericFrame(t, target)
    requires a.cells == b.cells
    ensures forall e :: e in RedundantPairs(t, target, p).pairs ==> e.key != (a.name, b.name)
  {
    var f := NumericFrame(t, target);
    FeaturesUnique(t, target);
    var ia :| 0 <= ia < |f| && f[ia] == a;
    var ib :| 0 <= ib < |f| && f[ib] == b;
    SelfCoefOutOfBand(p, a.cells);
    forall e | e in RedundantPairs(t, target, p).pairs ensures e.key != (a.name, b.name) {
      IdenticalPairAbsent(t, target, p, f, ia, ib, e);
    }
  }

  /** A coefficient the two-feature check shows in the band is also in the
      multicollinearity report, under the same pair of labels. */
  lemma CheckPairInReport(t: Table, target: string, f1: string, f2: string, p: Pearson)
    requires WellFormed(t)
    requires f1 in NumFeatures(t, target) && f2 in NumFeatures(t, target)
    requires CheckPair(t, Some(f1), Some(f2), p).Ok? && CheckPair(t, Some(f1), Some(f2), p).value.Coefficient?
    requires InBand(AbsCoef(CheckPair(t, Some(f1), Some(f2), p).value.coef))
    ensures RedundantPairs(t, target, p).Pairs?
    ensures Ranked((f1, f2), AbsCoef(CheckPair(t, Some(f1), Some(f2), p).value.coef)) in RedundantPairs(t, target, p).pairs
  {
    var f := NumericFrame(t, target);
    FeatureColumnsMembers(t.columns, Number, target);
    var i :| 0 <= i < |f| && f[i].name == f1;
    var j :| 0 <= j < |f| && f[j].name == f2;
    assert i != j;
    assert f[i] in f && f[j] in f;
    var ci :| 0 <= ci < |t.columns| && t.columns[ci] == f[i];
    var cj :| 0 <= cj < |t.columns| && t.columns[cj] == f[j];
    LookupUnique(t.columns, ci);
    LookupUnique(t.columns, cj);
    assert MatrixEntry(f[i], f[j], p) == Ranked((f1, f2), AbsCoef(CheckPair(t, Some(f1), Some(f2), p).value.coef));
    CellReported(t, target, p, i, j);
  }
}

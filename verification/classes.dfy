/** The "Class Behaviour" tab for a categorical target: the class distribution and
    the category-by-class table normalised by row. */
module Classes {
  import opened Basics
  import opened Order
  import opened Frame
  import opened Grouping

  // ------------------------------------------------------------- class counts

  /** One entry of `value_counts()`: a class and the number of rows holding it. */
  datatype Tally<K> = Tally(outcome: K, count: nat)

  function TallyOutcome<K>(e: Tally<K>): K
  {
    e.outcome
  }

  function TallyCount<K>(e: Tally<K>): int
  {
    e.count
  }

  function Tallies<K(==)>(d: seq<K>, s: seq<Option<K>>): (r: seq<Tally<K>>)
    ensures |r| == |d|
    ensures forall i :: 0 <= i < |d| ==> r[i] == Tally(d[i], CountOf(s, d[i]))
  {
    if |d| == 0 then [] else [Tally(d[0], CountOf(s, d[0]))] + Tallies(d[1..], s)
  }

  /** The order of `value_counts()`: most frequent first. */
  predicate CountBefore<K>(a: Tally<K>, b: Tally<K>)
  {
    a.count >= b.count
  }

  /** Line 262: every distinct present class with its number of rows, most frequent
      first; missing values are not counted. */
  function ValueCounts<K(==, !new)>(s: seq<Option<K>>): (r: seq<Tally<K>>)
    ensures |r| == |Distinct(s)|
  {
    SortBy(Tallies(Distinct(s), s), CountBefore<K>)
  }

  lemma {:induction false} TalliesSum<K>(d: seq<K>, s: seq<Option<K>>)
    ensures SumBy(Tallies(d, s), TallyCount<K>) == SumCounts(d, s)
  {
    if |d| > 0 {
      TalliesSum(d[1..], s);
      assert Tallies(d, s)[1..] == Tallies(d[1..], s);
    }
  }

  /** The class distribution: each present class exactly once, with the number of
      rows holding it (never zero), most frequent first, and the counts adding up
      to the number of rows whose target is present. */
  lemma ValueCountsProperties<K(!new)>(s: seq<Option<K>>)
    ensures var r := ValueCounts(s);
      && NoDup(MapSeq(TallyOutcome<K>, r))
      && (forall k :: k in MapSeq(TallyOutcome<K>, r) <==> Some(k) in s)
      && (forall e :: e in r ==> e.count == CountOf(s, e.outcome) && e.count > 0)
      && Sorted(r, CountBefore<K>)
      && SumBy(r, TallyCount<K>) == Present(s)
  {
    ValueCountsKeys(s);
    ValueCountsRows(s);
    ValueCountsOrder(s);
  }

  lemma ValueCountsKeys<K(!new)>(s: seq<Option<K>>)
    ensures NoDup(MapSeq(TallyOutcome<K>, ValueCounts(s)))
    ensures forall k :: k in MapSeq(TallyOutcome<K>, ValueCounts(s)) <==> Some(k) in s
  {
    var d := Distinct(s);
    var all := Tallies(d, s);
    var keys := MapSeq(TallyOutcome<K>, ValueCounts(s));
    assert MapSeq(TallyOutcome<K>, all) == d;
    SortByMapMultiset(all, CountBefore<K>, TallyOutcome<K>);
    NoDupPermutation(d, keys);
    forall k ensures k in keys <==> Some(k) in s {
      assert k in keys <==> k in multiset(keys);
      assert k in d <==> k in multiset(d);
    }
  }

  lemma ValueCountsRows<K(!new)>(s: seq<Option<K>>)
    ensures forall e :: e in ValueCounts(s) ==> e.count == CountOf(s, e.outcome) && e.count > 0
  {
    var all := Tallies(Distinct(s), s);
    forall e | e in ValueCounts(s) ensures e.count == CountOf(s, e.outcome) && e.count > 0 {
      SortByMembers(all, CountBefore<K>, e);
    }
  }

  lemma ValueCountsOrder<K(!new)>(s: seq<Option<K>>)
    ensures Sorted(ValueCounts(s), CountBefore<K>)
    ensures SumBy(ValueCounts(s), TallyCount<K>) == Present(s)
  {
    var d := Distinct(s);
    var all := Tallies(d, s);
    SortBySorted(all, CountBefore<K>);
    SortBySum(all, CountBefore<K>, TallyCount<K>);
    TalliesSum(d, s);
    SumCountsCovers(d, s);
  }

  // ------------------------------------------------------------- crosstab

  /** A count as a share of a row total; a row of the crosstab always has a
      positive total. */
  function Share(count: nat, total: nat): real
  {
    if total == 0 then 0.0 else count as real / total as real
  }

  /** For every class, the share of the entries of `s` holding it. */
  function Shares<K(==)>(classes: seq<K>, s: seq<Option<K>>): (r: seq<real>)
    ensures |r| == |classes|
    ensures forall i :: 0 <= i < |classes| ==> r[i] == Share(CountOf(s, classes[i]), Present(s))
  {
    if |classes| == 0 then [] else [Share(CountOf(s, classes[0]), Present(s))] + Shares(classes[1..], s)
  }

  /** One row of the normalised crosstab: a category and its class shares. */
  datatype ShareRow = ShareRow(category: string, shares: seq<real>)

  function RowCategory(r: ShareRow): string
  {
    r.category
  }

  function ShareRows<K(==)>(obs: seq<(Option<string>, Option<K>)>, cats: seq<string>, classes: seq<K>): (r: seq<ShareRow>)
    ensures |r| == |cats|
    ensures forall i :: 0 <= i < |cats| ==> r[i] == ShareRow(cats[i], Shares(classes, Within(obs, cats[i])))
  {
    if |cats| == 0 then [] else [ShareRow(cats[0], Shares(classes, Within(obs, cats[0])))] + ShareRows(obs, cats[1..], classes)
  }

  /** The normalised crosstab: its class columns and its category rows. */
  datatype Crosstab<K> = Crosstab(classes: seq<K>, rows: seq<ShareRow>)

  /** Line 295: `pd.crosstab(feature, target, normalize="index").sort_index()`.
      Only rows where both the category and the class are present are counted; each
      row is divided by its total; the rows are sorted by category. */
  function Normalized<K(==, !new)>(obs: seq<(Option<string>, Option<K>)>): (x: Crosstab<K>)
    ensures |x.rows| == |Distinct(LabelsWithValue(obs))|
  {
    var classes := Distinct(ValuesWithLabel(obs));
    var cats := Categories(LabelsWithValue(obs));
    Crosstab(classes, ShareRows(obs, cats, classes))
  }

  lemma DivAdd(a: real, b: real, n: real)
    requires n > 0.0
    ensures a / n + b / n == (a + b) / n
  {
  }

  lemma {:induction false} SharesSum<K>(classes: seq<K>, s: seq<Option<K>>)
    requires Present(s) > 0
    ensures SumReal(Shares(classes, s)) == SumCounts(classes, s) as real / Present(s) as real
  {
    if |classes| > 0 {
      SharesSum(classes[1..], s);
      assert Shares(classes, s)[1..] == Shares(classes[1..], s);
      DivAdd(CountOf(s, classes[0]) as real, SumCounts(classes[1..], s) as real, Present(s) as real);
    }
  }

  /** Every class present within a category is one of the crosstab's columns. */
  lemma ClassesCoverWithin<K(!new)>(obs: seq<(Option<string>, Option<K>)>, k: string)
    ensures forall c :: Some(c) in Within(obs, k) ==> c in Distinct(ValuesWithLabel(obs))
  {
    var s := Within(obs, k);
    forall c | Some(c) in s ensures Some(c) in ValuesWithLabel(obs) {
      var j :| 0 <= j < |s| && s[j] == Some(c);
      assert ValuesWithLabel(obs)[j] == Some(c);
    }
  }

  /** A category of the crosstab has at least one counted row. */
  lemma CategoryCounted<V>(obs: seq<(Option<string>, Option<V>)>, k: string)
    requires Some(k) in LabelsWithValue(obs)
    ensures Present(Within(obs, k)) > 0
  {
    var i :| 0 <= i < |obs| && LabelsWithValue(obs)[i] == Some(k);
    PresentPositive(Within(obs, k), i);
  }

  lemma WholeOverWhole(a: nat, b: nat)
    requires a == b && b > 0
    ensures a as real / b as real == 1.0
  {
  }

  /** A row's shares add up to one. */
  lemma RowSumsToOne<K(!new)>(obs: seq<(Option<string>, Option<K>)>, k: string)
    requires Some(k) in LabelsWithValue(obs)
    ensures SumReal(Shares(Distinct(ValuesWithLabel(obs)), Within(obs, k))) == 1.0
  {
    var classes := Distinct(ValuesWithLabel(obs));
    var s := Within(obs, k);
    CategoryCounted(obs, k);
    ClassesCoverWithin(obs, k);
    SumCountsCovers(classes, s);
    SharesSum(classes, s);
    WholeOverWhole(SumCounts(classes, s), Present(s));
  }

  lemma ShareBounded(c: nat, n: nat)
    requires c <= n
    ensures 0.0 <= Share(c, n) <= 1.0
  {
    if n > 0 {
      var q := c as real / n as real;
      assert q * n as real == c as real;
    }
  }

  /** Each share lies between zero and one. */
  lemma SharesBounded<K>(classes: seq<K>, s: seq<Option<K>>)
    ensures forall i :: 0 <= i < |classes| ==> 0.0 <= Shares(classes, s)[i] <= 1.0
  {
    forall i | 0 <= i < |classes| ensures 0.0 <= Shares(classes, s)[i] <= 1.0 {
      ShareBounded(CountOf(s, classes[i]), Present(s));
    }
  }

  /** The normalised crosstab: one column per distinct present class; one row per
      category that has a present class, strictly ascending by category; every row
      has a share per class, each between zero and one, adding up to one, and
      each share is the class's count within the category over the category's
      counted rows. */
  lemma NormalizedProperties<K(!new)>(obs: seq<(Option<string>, Option<K>)>)
    ensures var x := Normalized(obs);
      && NoDup(x.classes)
      && (forall c :: c in x.classes <==> Some(c) in ValuesWithLabel(obs))
      && (forall k :: k in MapSeq(RowCategory, x.rows) <==> Some(k) in LabelsWithValue(obs))
      && (forall i, j :: 0 <= i < j < |x.rows| ==>
            LexLe(x.rows[i].category, x.rows[j].category) && x.rows[i].category != x.rows[j].category)
      && (forall i :: 0 <= i < |x.rows| ==>
            && |x.rows[i].shares| == |x.classes|
            && SumReal(x.rows[i].shares) == 1.0
            && (forall j :: 0 <= j < |x.classes| ==> 0.0 <= x.rows[i].shares[j] <= 1.0)
            && (forall j :: 0 <= j < |x.classes| ==>
                  x.rows[i].shares[j] == Share(CountOf(Within(obs, x.rows[i].category), x.classes[j]),
                                               Present(Within(obs, x.rows[i].category)))))
  {
    NormalizedColumns(obs);
    NormalizedOrder(obs);
    NormalizedShares(obs);
  }

  lemma NormalizedColumns<K(!new)>(obs: seq<(Option<string>, Option<K>)>)
    ensures NoDup(Normalized(obs).classes)
    ensures forall c :: c in Normalized(obs).classes <==> Some(c) in ValuesWithLabel(obs)
  {
  }

  lemma NormalizedOrder<K(!new)>(obs: seq<(Option<string>, Option<K>)>)
    ensures var rows := Normalized(obs).rows;
      && (forall k :: k in MapSeq(RowCategory, rows) <==> Some(k) in LabelsWithValue(obs))
      && (forall i, j :: 0 <= i < j < |rows| ==>
            LexLe(rows[i].category, rows[j].category) && rows[i].category != rows[j].category)
  {
    var cats := Categories(LabelsWithValue(obs));
    CategoriesOrdered(LabelsWithValue(obs));
    assert MapSeq(RowCategory, Normalized(obs).rows) == cats;
  }

  lemma NormalizedShares<K(!new)>(obs: seq<(Option<string>, Option<K>)>)
    ensures forall i :: 0 <= i < |Normalized(obs).rows| ==>
      && |Normalized(obs).rows[i].shares| == |Normalized(obs).classes|
      && SumReal(Normalized(obs).rows[i].shares) == 1.0
      && (forall j :: 0 <= j < |Normalized(obs).classes| ==> 0.0 <= Normalized(obs).rows[i].shares[j] <= 1.0)
      && (forall j :: 0 <= j < |Normalized(obs).classes| ==>
            Normalized(obs).rows[i].shares[j]
              == Share(CountOf(Within(obs, Normalized(obs).rows[i].category), Normalized(obs).classes[j]),
                       Present(Within(obs, Normalized(obs).rows[i].category))))
  {
    forall i | 0 <= i < |Normalized(obs).rows|
      ensures |Normalized(obs).rows[i].shares| == |Normalized(obs).classes|
      ensures SumReal(Normalized(obs).rows[i].shares) == 1.0
      ensures forall j :: 0 <= j < |Normalized(obs).classes| ==> 0.0 <= Normalized(obs).rows[i].shares[j] <= 1.0
      ensures forall j :: 0 <= j < |Normalized(obs).classes| ==>
                Normalized(obs).rows[i].shares[j]
                  == Share(CountOf(Within(obs, Normalized(obs).rows[i].category), Normalized(obs).classes[j]),
                           Present(Within(obs, Normalized(obs).rows[i].category)))
    {
      NormalizedRow(obs, i);
    }
  }

  lemma NormalizedRow<K(!new)>(obs: seq<(Option<string>, Option<K>)>, i: int)
    requires 0 <= i < |Normalized(obs).rows|
    ensures |Normalized(obs).rows[i].shares| == |Normalized(obs).classes|
    ensures SumReal(Normalized(obs).rows[i].shares) == 1.0
    ensures forall j :: 0 <= j < |Normalized(obs).classes| ==> 0.0 <= Normalized(obs).rows[i].shares[j] <= 1.0
    ensures forall j :: 0 <= j < |Normalized(obs).classes| ==>
              Normalized(obs).rows[i].shares[j]
                == Share(CountOf(Within(obs, Normalized(obs).rows[i].category), Normalized(obs).classes[j]),
                         Present(Within(obs, Normalized(obs).rows[i].category)))
  {
    var cats := Categories(LabelsWithValue(obs));
    var classes := Distinct(ValuesWithLabel(obs));
    assert Normalized(obs).rows[i] == ShareRow(cats[i], Shares(classes, Within(obs, cats[i])));
    CategoriesOrdered(LabelsWithValue(obs));
    assert cats[i] in cats;
    RowSumsToOne(obs, cats[i]);
    SharesBounded(classes, Within(obs, cats[i]));
  }

  // ------------------------------------------------------------- over the table

  /** A target class as `value_counts` and `crosstab` see it: any present cell. */
  function ClassOf(c: Cell): Option<Cell>
  {
    if c.NA? then None else Some(c)
  }

  /** `df[target].value_counts()`. */
  function ClassCounts(t: Table, target: string): (r: Result<seq<Tally<Cell>>>)
    ensures r.Err? <==> target !in Names(t.columns)
  {
    match Lookup(t.columns, target)
    case None => Err(KeyNotFound(target))
    case Some(tc) => Ok(ValueCounts(MapSeq(ClassOf, tc.cells)))
  }

  /** `pd.crosstab(df[cat_feature], df[target], normalize="index").sort_index()`;
      the selectbox returns None when there is no categorical feature. */
  function CrosstabOf(t: Table, feature: Option<string>, target: string): (r: Result<Crosstab<Cell>>)
    ensures r.Err? <==> feature.None? || feature.value !in Names(t.columns) || target !in Names(t.columns)
  {
    if feature.None? then Err(NoSelection)
    else
      match (Lookup(t.columns, feature.value), Lookup(t.columns, target))
      case (None, _) => Err(KeyNotFound(feature.value))
      case (_, None) => Err(KeyNotFound(target))
      case (Some(f), Some(tc)) => Ok(Normalized(Zip(MapSeq(LabelOf, f.cells), MapSeq(ClassOf, tc.cells))))
  }

  /** The class counts of a table add up to the target's non-missing cells. */
  lemma ClassCountsTotal(t: Table, target: string)
    requires ClassCounts(t, target).Ok?
    ensures SumBy(ClassCounts(t, target).value, TallyCount<Cell>) ==
            |Lookup(t.columns, target).value.cells| - CountNA(Lookup(t.columns, target).value.cells)
  {
    var cells := Lookup(t.columns, target).value.cells;
    ValueCountsProperties(MapSeq(ClassOf, cells));
    PresentIsNotNA(cells);
  }

  lemma {:induction false} PresentIsNotNA(cells: seq<Cell>)
    ensures Present(MapSeq(ClassOf, cells)) == |cells| - CountNA(cells)
  {
    if |cells| > 0 {
      PresentIsNotNA(cells[1..]);
      assert MapSeq(ClassOf, cells)[1..] == MapSeq(ClassOf, cells[1..]);
    }
  }
}

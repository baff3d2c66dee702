/** Which role each column plays once a target is chosen: the target's kind decides
    which tabs the dashboard offers, and the feature lists feed every selectbox. */
module Schema {
  import opened Basics
  import opened Frame

  datatype Kind = Numeric | Categorical

  datatype Roles = Roles(kind: Kind, numFeatures: seq<string>, catFeatures: seq<string>)

  /** `is_target_numeric = is_numeric_dtype(df[target])`; the categorical flag is its
      negation, so the two are complementary by construction. */
  function TargetKind(d: Dtype): (k: Kind)
    ensures k == Numeric <==> IsNumericDtype(d)
    ensures k == Categorical <==> !IsNumericDtype(d)
  {
    if IsNumericDtype(d) then Numeric else Categorical
  }

  /** The columns of a selection other than the target, in table order. */
  function FeatureColumns(cols: seq<Column>, sel: Selection, target: string): seq<Column>
  {
    if |cols| == 0 then []
    else
      (if Selects(sel, cols[0].dtype) && cols[0].name != target then [cols[0]] else [])
      + FeatureColumns(cols[1..], sel, target)
  }

  /** `all.drop(target) if target in all else all`, with `all` the labels of a
      `select_dtypes` selection. */
  function GuardedDrop(cols: seq<Column>, sel: Selection, target: string): seq<string>
  {
    var all := Names(Select(cols, sel));
    if target in all then Drop(all, target) else all
  }

  /** `num_features`: number columns other than the target. */
  function NumFeatures(t: Table, target: string): (r: seq<string>)
    ensures r == Names(FeatureColumns(t.columns, Number, target))
  {
    GuardedDropIsFeatures(t.columns, Number, target);
    GuardedDrop(t.columns, Number, target)
  }

  /** `cat_features`: object and category columns other than the target. */
  function CatFeatures(t: Table, target: string): (r: seq<string>)
    ensures r == Names(FeatureColumns(t.columns, ObjectCategory, target))
  {
    GuardedDropIsFeatures(t.columns, ObjectCategory, target);
    GuardedDrop(t.columns, ObjectCategory, target)
  }

  /** The whole classification step: the target must be a column (`df[target]`
      raises otherwise). */
  function Classify(t: Table, target: string): (r: Result<Roles>)
    ensures r.Err? <==> target !in Names(t.columns)
    ensures r.Err? ==> r.error == KeyNotFound(target)
    ensures r.Ok? ==> (r.value.kind == Categorical <==> !IsNumericDtype(Lookup(t.columns, target).value.dtype))
    ensures r.Ok? ==> target !in r.value.numFeatures && target !in r.value.catFeatures
  {
    match Lookup(t.columns, target)
    case None => Err(KeyNotFound(target))
    case Some(col) =>
      FeatureColumnsMembers(t.columns, Number, target);
      FeatureColumnsMembers(t.columns, ObjectCategory, target);
      Ok(Roles(TargetKind(col.dtype), NumFeatures(t, target), CatFeatures(t, target)))
  }

  /** `select_dtypes(include=["object", "category"]).columns.drop(target)` in the
      class-behaviour tab: the drop is not guarded, so it raises when the target is
      not itself an object or category column. */
  function CatForClass(t: Table, target: string): (r: Result<seq<string>>)
    ensures r.Err? <==> target !in Names(Select(t.columns, ObjectCategory))
  {
    var all := Names(Select(t.columns, ObjectCategory));
    if target in all then Ok(Drop(all, target)) else Err(KeyNotFound(target))
  }

  lemma {:induction false} FeatureColumnsHas(cols: seq<Column>, sel: Selection, target: string)
    ensures forall c :: c in FeatureColumns(cols, sel, target) <==>
      c in cols && Selects(sel, c.dtype) && c.name != target
  {
    if |cols| > 0 {
      FeatureColumnsHas(cols[1..], sel, target);
      assert cols == [cols[0]] + cols[1..];
    }
  }

  lemma FeatureColumnsMembers(cols: seq<Column>, sel: Selection, target: string)
    ensures forall c :: c in FeatureColumns(cols, sel, target) <==>
      c in cols && Selects(sel, c.dtype) && c.name != target
    ensures forall n :: n in Names(FeatureColumns(cols, sel, target)) <==>
      n != target && exists i :: 0 <= i < |cols| && cols[i].name == n && Selects(sel, cols[i].dtype)
  {
    FeatureColumnsHas(cols, sel, target);
    forall n ensures n in Names(FeatureColumns(cols, sel, target)) <==>
      n != target && exists i :: 0 <= i < |cols| && cols[i].name == n && Selects(sel, cols[i].dtype)
    {
      if n in Names(FeatureColumns(cols, sel, target)) {
        FeatureLabelOnly(cols, sel, target, n);
      }
      if n != target && exists i :: 0 <= i < |cols| && cols[i].name == n && Selects(sel, cols[i].dtype) {
        FeatureLabelHas(cols, sel, target, n);
      }
    }
  }

  lemma FeatureLabelOnly(cols: seq<Column>, sel: Selection, target: string, n: string)
    requires n in Names(FeatureColumns(cols, sel, target))
    ensures n != target && exists i :: 0 <= i < |cols| && cols[i].name == n && Selects(sel, cols[i].dtype)
  {
    var f := FeatureColumns(cols, sel, target);
    FeatureColumnsHas(cols, sel, target);
    var p :| 0 <= p < |f| && Names(f)[p] == n;
    assert f[p] in f;
    var i :| 0 <= i < |cols| && cols[i] == f[p];
  }

  lemma FeatureLabelHas(cols: seq<Column>, sel: Selection, target: string, n: string)
    requires n != target && exists i :: 0 <= i < |cols| && cols[i].name == n && Selects(sel, cols[i].dtype)
    ensures n in Names(FeatureColumns(cols, sel, target))
  {
    var f := FeatureColumns(cols, sel, target);
    FeatureColumnsHas(cols, sel, target);
    var i :| 0 <= i < |cols| && cols[i].name == n && Selects(sel, cols[i].dtype);
    assert cols[i] in f;
    var p :| 0 <= p < |f| && f[p] == cols[i];
    assert Names(f)[p] == n;
  }

  lemma {:induction false} DropNamesIsFeatures(cols: seq<Column>, sel: Selection, target: string)
    ensures Drop(Names(Select(cols, sel)), target) == Names(FeatureColumns(cols, sel, target))
  {
    if |cols| > 0 {
      DropNamesIsFeatures(cols[1..], sel, target);
      var head := if Selects(sel, cols[0].dtype) then [cols[0]] else [];
      assert Select(cols, sel) == head + Select(cols[1..], sel);
      NamesAppend(head, Select(cols[1..], sel));
      var fhead := if Selects(sel, cols[0].dtype) && cols[0].name != target then [cols[0]] else [];
      NamesAppend(fhead, FeatureColumns(cols[1..], sel, target));
      DropAppend(Names(head), Names(Select(cols[1..], sel)), target);
    }
  }

  lemma {:induction false} GuardedDropIsFeatures(cols: seq<Column>, sel: Selection, target: string)
    ensures GuardedDrop(cols, sel, target) == Names(FeatureColumns(cols, sel, target))
  {
    DropNamesIsFeatures(cols, sel, target);
    var all := Names(Select(cols, sel));
    if target !in all {
      DropAbsent(all, target);
    }
  }

  lemma {:induction false} NamesAppend(a: seq<Column>, b: seq<Column>)
    ensures Names(a + b) == Names(a) + Names(b)
  {
  }

  lemma {:induction false} DropAppend(a: seq<string>, b: seq<string>, key: string)
    ensures Drop(a + b, key) == Drop(a, key) + Drop(b, key)
  {
    if |a| > 0 {
      assert (a + b)[1..] == a[1..] + b;
      DropAppend(a[1..], b, key);
    } else {
      assert a + b == b;
    }
  }

  lemma {:induction false} DropAbsent(a: seq<string>, key: string)
    requires key !in a
    ensures Drop(a, key) == a
  {
    if |a| > 0 {
      DropAbsent(a[1..], key);
    }
  }

  /** The labels appear in the same order as their columns in the table. */
  ghost predicate InTableOrder(cols: seq<Column>, names: seq<string>)
  {
    forall p, q :: 0 <= p < q < |names| ==> IndexOf(cols, names[p]) < IndexOf(cols, names[q])
  }

  /** The labels are exactly those of the non-target columns of one selection. */
  ghost predicate ExactlySelected(cols: seq<Column>, sel: Selection, target: string, names: seq<string>)
  {
    forall n :: n in names <==>
      n != target && exists i :: 0 <= i < |cols| && cols[i].name == n && Selects(sel, cols[i].dtype)
  }

  lemma UniqueAt(cols: seq<Column>, i: int, j: int)
    requires UniqueNames(cols) && 0 <= i < |cols| && 0 <= j < |cols| && cols[i].name == cols[j].name
    ensures i == j
  {
  }

  lemma UniqueTail(cols: seq<Column>)
    requires UniqueNames(cols) && |cols| > 0
    ensures UniqueNames(cols[1..])
  {
    var rest := cols[1..];
    forall i, j | 0 <= i < j < |rest| ensures rest[i].name != rest[j].name {
      assert rest[i] == cols[i + 1] && rest[j] == cols[j + 1];
    }
  }

  /** A feature taken from the tail of the table is not the first column's label. */
  lemma TailFeatureLabel(cols: seq<Column>, sel: Selection, target: string, p: int)
    requires UniqueNames(cols) && |cols| > 0
    requires 0 <= p < |FeatureColumns(cols[1..], sel, target)|
    ensures FeatureColumns(cols[1..], sel, target)[p].name != cols[0].name
  {
    var rest := cols[1..];
    var c := FeatureColumns(rest, sel, target)[p];
    FeatureColumnsMembers(rest, sel, target);
    assert c in FeatureColumns(rest, sel, target);
    var k :| 0 <= k < |rest| && rest[k] == c;
    assert cols[k + 1] == c;
    assert cols[0].name != cols[k + 1].name;
  }

  /** Feature lists keep the table's column order. */
  lemma {:induction false} FeatureColumnsInOrder(cols: seq<Column>, sel: Selection, target: string)
    requires UniqueNames(cols)
    ensures InTableOrder(cols, Names(FeatureColumns(cols, sel, target)))
  {
    if |cols| > 0 {
      var rest := cols[1..];
      UniqueTail(cols);
      FeatureColumnsInOrder(rest, sel, target);
      var fc := FeatureColumns(rest, sel, target);
      var fr := Names(fc);
      forall p | 0 <= p < |fr| ensures IndexOf(cols, fr[p]) == 1 + IndexOf(rest, fr[p]) {
        TailFeatureLabel(cols, sel, target, p);
      }
      var head := if Selects(sel, cols[0].dtype) && cols[0].name != target then [cols[0]] else [];
      NamesAppend(head, fc);
      InTableOrderCons(cols, Names(head), fr);
    }
  }

  lemma InTableOrderCons(cols: seq<Column>, first: seq<string>, fr: seq<string>)
    requires |cols| > 0 && (first == [] || first == [cols[0].name])
    requires InTableOrder(cols[1..], fr)
    requires forall p :: 0 <= p < |fr| ==> IndexOf(cols, fr[p]) == 1 + IndexOf(cols[1..], fr[p])
    ensures InTableOrder(cols, first + fr)
  {
    InTableOrderShift(cols, fr);
    if first == [] {
      assert first + fr == fr;
    } else {
      InTableOrderPrepend(cols, fr);
    }
  }

  lemma InTableOrderShift(cols: seq<Column>, fr: seq<string>)
    requires |cols| > 0
    requires InTableOrder(cols[1..], fr)
    requires forall p :: 0 <= p < |fr| ==> IndexOf(cols, fr[p]) == 1 + IndexOf(cols[1..], fr[p])
    ensures InTableOrder(cols, fr)
    ensures forall p :: 0 <= p < |fr| ==> IndexOf(cols, fr[p]) > 0
  {
  }

  lemma InTableOrderPrepend(cols: seq<Column>, fr: seq<string>)
    requires |cols| > 0
    requires InTableOrder(cols, fr)
    requires forall p :: 0 <= p < |fr| ==> IndexOf(cols, fr[p]) > 0
    ensures InTableOrder(cols, [cols[0].name] + fr)
  {
    FirstIndex(cols);
    IncreasingCons(fr, cols[0].name, (s: string) => IndexOf(cols, s));
  }

  /** A label ranked before every label of an increasing list keeps it increasing
      when put in front. */
  lemma IncreasingCons(fr: seq<string>, x: string, rank: string -> int)
    requires forall p, q :: 0 <= p < q < |fr| ==> rank(fr[p]) < rank(fr[q])
    requires forall q :: 0 <= q < |fr| ==> rank(x) < rank(fr[q])
    ensures forall p, q :: 0 <= p < q < |[x] + fr| ==> rank(([x] + fr)[p]) < rank(([x] + fr)[q])
  {
    var f := [x] + fr;
    forall p, q | 0 <= p < q < |f| ensures rank(f[p]) < rank(f[q]) {
      assert f[q] == fr[q - 1];
      if p > 0 {
        assert f[p] == fr[p - 1];
      }
    }
  }

  lemma FirstIndex(cols: seq<Column>)
    requires |cols| > 0
    ensures IndexOf(cols, cols[0].name) == 0
  {
  }

  /** The feature partition: the target is in neither list, and each list holds
      exactly the non-target columns of its kind, in table order. */
  lemma FeaturePartition(t: Table, target: string)
    requires WellFormed(t)
    ensures target !in NumFeatures(t, target) && target !in CatFeatures(t, target)
    ensures ExactlySelected(t.columns, Number, target, NumFeatures(t, target))
    ensures ExactlySelected(t.columns, ObjectCategory, target, CatFeatures(t, target))
    ensures InTableOrder(t.columns, NumFeatures(t, target))
    ensures InTableOrder(t.columns, CatFeatures(t, target))
  {
    FeatureColumnsMembers(t.columns, Number, target);
    FeatureColumnsMembers(t.columns, ObjectCategory, target);
    FeatureColumnsInOrder(t.columns, Number, target);
    FeatureColumnsInOrder(t.columns, ObjectCategory, target);
  }

  /** No label is both a numeric and a categorical feature. */
  lemma FeaturesDisjoint(t: Table, target: string)
    requires WellFormed(t)
    ensures forall n :: n in NumFeatures(t, target) ==> n !in CatFeatures(t, target)
  {
    FeaturePartition(t, target);
    forall n | n in NumFeatures(t, target) ensures n !in CatFeatures(t, target) {
      var i :| 0 <= i < |t.columns| && t.columns[i].name == n && Selects(Number, t.columns[i].dtype);
      forall j | 0 <= j < |t.columns| && t.columns[j].name == n
        ensures !Selects(ObjectCategory, t.columns[j].dtype)
      {
        UniqueAt(t.columns, i, j);
      }
    }
  }

  /** The class-behaviour tab's categorical list succeeds exactly when the target is
      itself an object or category column, and then it is `cat_features`; a
      categorical target of another dtype (datetime) makes it raise. */
  lemma CatForClassAgrees(t: Table, target: string)
    requires WellFormed(t) && target in Names(t.columns)
    ensures CatForClass(t, target).Ok? <==> Selects(ObjectCategory, Lookup(t.columns, target).value.dtype)
    ensures CatForClass(t, target).Ok? ==> CatForClass(t, target).value == CatFeatures(t, target)
  {
    var col := Lookup(t.columns, target).value;
    SelectMembers(t.columns, ObjectCategory);
    var sel := Select(t.columns, ObjectCategory);
    var j :| 0 <= j < |t.columns| && t.columns[j] == col;
    if Selects(ObjectCategory, col.dtype) {
      assert col in sel;
      var p :| 0 <= p < |sel| && sel[p] == col;
      assert Names(sel)[p] == target;
    }
    if target in Names(sel) {
      var p :| 0 <= p < |sel| && Names(sel)[p] == target;
      assert sel[p] in sel;
      var i :| 0 <= i < |t.columns| && t.columns[i] == sel[p];
      UniqueAt(t.columns, i, j);
      DropNamesIsFeatures(t.columns, ObjectCategory, target);
    }
  }

  /** The example dataset `[age:int, income:float, city:category, churned:category]`
      with target `churned`. */
  function ChurnTable(): Table
  {
    Table([Column("age", Int64, []), Column("income", Float64, []),
           Column("city", Category, []), Column("churned", Category, [])], 0)
  }

  lemma ChurnScenario()
    ensures Classify(ChurnTable(), "churned") == Ok(Roles(Categorical, ["age", "income"], ["city"]))
    ensures CatForClass(ChurnTable(), "churned") == Ok(["city"])
  {
    ChurnNumeric();
    ChurnCategorical();
    ChurnTarget();
  }

  lemma ChurnTarget()
    ensures Lookup(ChurnTable().columns, "churned") == Some(Column("churned", Category, []))
  {
    var cols := ChurnTable().columns;
    assert cols[1..][1..][1..] == [cols[3]];
  }

  lemma ChurnNumeric()
    ensures NumFeatures(ChurnTable(), "churned") == ["age", "income"]
  {
    var cols := ChurnTable().columns;
    var age, income, city, churned := cols[0], cols[1], cols[2], cols[3];
    assert cols[1..] == [income, city, churned];
    assert cols[1..][1..] == [city, churned];
    assert cols[1..][1..][1..] == [churned];
    assert FeatureColumns([churned], Number, "churned") == [];
    assert FeatureColumns([city, churned], Number, "churned") == [];
    assert FeatureColumns(cols, Number, "churned") == [age, income];
    assert Names([age, income]) == ["age", "income"];
  }

  lemma ChurnCategorical()
    ensures CatFeatures(ChurnTable(), "churned") == ["city"]
    ensures CatForClass(ChurnTable(), "churned") == Ok(["city"])
  {
    var cols := ChurnTable().columns;
    var city, churned := cols[2], cols[3];
    assert cols[1..] == [cols[1], city, churned];
    assert cols[1..][1..] == [city, churned];
    assert cols[1..][1..][1..] == [churned];
    assert FeatureColumns([churned], ObjectCategory, "churned") == [];
    assert FeatureColumns([city, churned], ObjectCategory, "churned") == [city];
    assert FeatureColumns(cols[1..], ObjectCategory, "churned") == [city];
    assert FeatureColumns(cols, ObjectCategory, "churned") == [city];
    assert Select([churned], ObjectCategory) == [churned];
    assert Select([city, churned], ObjectCategory) == [city, churned];
    assert Select(cols[1..], ObjectCategory) == [city, churned];
    assert Select(cols, ObjectCategory) == [city, churned];
    assert Names([city, churned]) == ["city", "churned"];
    assert Names([city]) == ["city"];
  }
}

/** The table the dashboard analyses: a pandas DataFrame as read from the uploaded
    CSV, reduced to named columns with a declared dtype and their cells. */
module Frame {
  import opened Basics

  /** The dtypes the analysis tells apart. `NarrowInt` and `NarrowFloat` stand for
      the numpy widths other than 64 bits (int8..int32, uint*, float16/32). */
  datatype Dtype = Int64 | Float64 | NarrowInt | NarrowFloat | Bool | Object | Category | Datetime

  /** One cell: a missing value (NaN, None, NaT), a number, a string or a boolean. */
  datatype Cell = NA | Num(x: real) | Text(s: string) | Flag(b: bool)

  datatype Column = Column(name: string, dtype: Dtype, cells: seq<Cell>)

  datatype Table = Table(columns: seq<Column>, nrows: nat)

  /** `pd.api.types.is_numeric_dtype`: integers, floats and booleans. */
  predicate IsNumericDtype(d: Dtype)
  {
    d.Int64? || d.Float64? || d.NarrowInt? || d.NarrowFloat? || d.Bool?
  }

  /** The dtype groups `select_dtypes(include=...)` is asked for. */
  datatype Selection =
    | Number          // include=["number"]: every int and float width, not bool
    | ObjectCategory  // include=["object", "category"]
    | Int64Float64    // include=["int64", "float64"]

  predicate Selects(sel: Selection, d: Dtype)
  {
    match sel
    case Number => d.Int64? || d.Float64? || d.NarrowInt? || d.NarrowFloat?
    case ObjectCategory => d.Object? || d.Category?
    case Int64Float64 => d.Int64? || d.Float64?
  }

  /** What a cell of each dtype can hold: integer and bool columns have no
      missing values (pandas stores an int column with a gap as float64), object
      and category columns hold strings, numeric and datetime columns numbers. */
  predicate CellFits(d: Dtype, c: Cell)
  {
    match d
    case Int64 => c.Num?
    case NarrowInt => c.Num?
    case Float64 => c.Num? || c.NA?
    case NarrowFloat => c.Num? || c.NA?
    case Datetime => c.Num? || c.NA?
    case Bool => c.Flag?
    case Object => c.Text? || c.NA?
    case Category => c.Text? || c.NA?
  }

  predicate UniqueNames(cols: seq<Column>)
  {
    forall i, j :: 0 <= i < j < |cols| ==> cols[i].name != cols[j].name
  }

  /** A DataFrame: distinct column labels, every column `nrows` long, every cell
      fitting its column's dtype. */
  predicate WellFormed(t: Table)
  {
    && UniqueNames(t.columns)
    && (forall i :: 0 <= i < |t.columns| ==> |t.columns[i].cells| == t.nrows)
    && (forall i, r :: 0 <= i < |t.columns| && 0 <= r < |t.columns[i].cells| ==>
          CellFits(t.columns[i].dtype, t.columns[i].cells[r]))
  }

  function Names(cols: seq<Column>): (r: seq<string>)
    ensures |r| == |cols|
    ensures forall i :: 0 <= i < |cols| ==> r[i] == cols[i].name
  {
    if |cols| == 0 then [] else [cols[0].name] + Names(cols[1..])
  }

  /** `df[name]`: the first column carrying the label, if any. */
  function Lookup(cols: seq<Column>, name: string): (r: Option<Column>)
    ensures r.None? <==> name !in Names(cols)
    ensures r.Some? ==> r.value in cols && r.value.name == name
  {
    if |cols| == 0 then None
    else if cols[0].name == name then Some(cols[0])
    else Lookup(cols[1..], name)
  }

  /** Position of the first column carrying the label, `|cols|` when none does. */
  function IndexOf(cols: seq<Column>, name: string): (r: nat)
    ensures r <= |cols|
    ensures r < |cols| ==> cols[r].name == name
  {
    if |cols| == 0 then 0
    else if cols[0].name == name then 0
    else 1 + IndexOf(cols[1..], name)
  }

  /** `df.select_dtypes(include=...)`: the selected columns, in table order. */
  function Select(cols: seq<Column>, sel: Selection): seq<Column>
  {
    if |cols| == 0 then []
    else (if Selects(sel, cols[0].dtype) then [cols[0]] else []) + Select(cols[1..], sel)
  }

  lemma {:induction false} SelectMembers(cols: seq<Column>, sel: Selection)
    ensures forall c :: c in Select(cols, sel) <==> c in cols && Selects(sel, c.dtype)
  {
    if |cols| > 0 {
      SelectMembers(cols[1..], sel);
      assert cols == [cols[0]] + cols[1..];
    }
  }

  /** `Index.drop(key)`: every occurrence of the key removed, order kept. */
  function Drop(names: seq<string>, key: string): seq<string>
  {
    if |names| == 0 then []
    else (if names[0] == key then [] else [names[0]]) + Drop(names[1..], key)
  }

  /** `df.isna().sum().sum()`: the missing cells of the whole table. */
  function MissingTotal(cols: seq<Column>): nat
  {
    if |cols| == 0 then 0 else CountNA(cols[0].cells) + MissingTotal(cols[1..])
  }

  function CountNA(cells: seq<Cell>): (r: nat)
    ensures r <= |cells|
  {
    if |cells| == 0 then 0 else (if cells[0].NA? then 1 else 0) + CountNA(cells[1..])
  }

  /** The missing total never exceeds the number of cells, and it is zero when
      only dtypes that cannot hold a gap (int, bool) are present. */
  lemma MissingTotalBounds(t: Table)
    requires WellFormed(t)
    ensures MissingTotal(t.columns) <= |t.columns| * t.nrows
    ensures (forall i :: 0 <= i < |t.columns| ==> t.columns[i].dtype in {Int64, NarrowInt, Bool})
              ==> MissingTotal(t.columns) == 0
  {
    MissingTotalAtMost(t.columns, t.nrows);
    if forall i :: 0 <= i < |t.columns| ==> t.columns[i].dtype in {Int64, NarrowInt, Bool} {
      MissingTotalZero(t.columns);
    }
  }

  lemma {:induction false} MissingTotalAtMost(cols: seq<Column>, n: nat)
    requires forall i :: 0 <= i < |cols| ==> |cols[i].cells| == n
    ensures MissingTotal(cols) <= |cols| * n
  {
    if |cols| > 0 {
      assert forall i :: 0 <= i < |cols[1..]| ==> cols[1..][i] == cols[i + 1];
      MissingTotalAtMost(cols[1..], n);
      assert |cols| * n == n + |cols[1..]| * n;
    }
  }

  lemma {:induction false} MissingTotalZero(cols: seq<Column>)
    requires forall i :: 0 <= i < |cols| ==> cols[i].dtype in {Int64, NarrowInt, Bool}
    requires forall i, r :: 0 <= i < |cols| && 0 <= r < |cols[i].cells| ==> CellFits(cols[i].dtype, cols[i].cells[r])
    ensures MissingTotal(cols) == 0
  {
    if |cols| > 0 {
      assert forall i :: 0 <= i < |cols[1..]| ==> cols[1..][i] == cols[i + 1];
      MissingTotalZero(cols[1..]);
      NoNAInGaplessColumn(cols[0].dtype, cols[0].cells);
    }
  }

  lemma {:induction false} NoNAInGaplessColumn(d: Dtype, cells: seq<Cell>)
    requires d in {Int64, NarrowInt, Bool}
    requires forall r :: 0 <= r < |cells| ==> CellFits(d, cells[r])
    ensures CountNA(cells) == 0
  {
    if |cells| > 0 {
      NoNAInGaplessColumn(d, cells[1..]);
    }
  }
}

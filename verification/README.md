# EDA-DashingBoard analysis layer in Dafny

EDA-DashingBoard is a Streamlit dashboard (`app.py`). It loads a CSV file into a
pandas DataFrame. The user picks a target column, and the dashboard computes summaries
that depend on whether the target is numeric or categorical. This project models the
pandas expressions that decide those summaries, and proves properties of them. They
decide which columns play which role and how results are ranked, filtered, grouped and
normalised. All of them are pure functions over a table.

- `basics.dfy` (`Basics`): the option type (`None` is pandas' NaN/NA), the result type for
  expressions that raise (a missing label as in `KeyError`, an empty selectbox), and
  distinct-element lemmas.
- `order.dfy` (`Order`): the orders of `sort_values` (descending or ascending, NaN last)
  and Python's string order. It also has the insertion sort that realises them, with
  sortedness, permutation, projection and sum lemmas.
- `frame.dfy` (`Frame`): the DataFrame. Columns have a label, a dtype and cells. The file
  also models `select_dtypes`, `df[label]`, `Index.drop` and the missing-value total.
- `schema.dfy` (`Schema`): the target kind, the numeric and categorical feature lists,
  and the categorical list of the class tab, whose drop of the target is unguarded.
- `correlation.dfy` (`Correlation`): the top-K ranking against the target, the
  two-feature check and the multicollinearity report.
- `grouping.dfy` (`Grouping`): distinct labels and counts, plus the per-category
  median/std/count table and the median bar chart.
- `classes.dfy` (`Classes`): `value_counts` of the target and the row-normalised
  crosstab.

The floating-point statistics are parameters, not models:

- The Pearson coefficient is a function of two columns. `ValidPearson` requires it to be
  symmetric, to give 1.0 or NaN on the diagonal, and to stay within [-1, 1].
- The median and the standard deviation are functions of a group's values.
  `ValidMedian` requires the median to be NaN exactly for an empty group. `ValidStd`
  requires the ddof-1 standard deviation to be NaN exactly below two values, and never
  negative.

Lemmas that need these facts take the predicates as preconditions.

In three places `app.py` does not do what the dashboard evidently sets out to do, or
what a reader would assume. The model follows `app.py` each time:

- **Redundant pairs.** A multicollinearity report would naturally list each unordered
  pair once. The code stacks the full square matrix, so (a, b) is reported exactly when
  (b, a) is, and each ordered pair appears exactly once. `RedundantPairsProperties`
  proves both.
- **Boolean columns.** A True/False column is neither a measurement nor a text
  category. Still, `is_numeric_dtype` calls it numeric, so a boolean target takes the
  numeric branch. `select_dtypes("number")` still leaves boolean columns out of the
  feature lists.
- **Top-K selection.** The ranking is meant to cover every numeric feature. The code
  ranks only the `int64`/`float64` columns. `TopKProperties` states the code's
  behaviour. `TopKOfFeaturesProperties` states the intended ranking over `num_features`
  for the corrected definition (see Findings).

The class tab's `num_for_class` (app.py:274-277) is the same guarded drop of the target
from `select_dtypes("number")` as `num_features`, so `Schema.NumFeatures` models both.

## Model

| member | source | states |
|---|---|---|
| Schema.TargetKind | app.py:22-23 | the target is numeric exactly when its dtype is numeric (int, float or bool), and categorical exactly when it is not |
| Schema.NumFeatures | app.py:27-30 | the guarded drop of the target yields exactly the labels of the `number` columns (every int and float width, no bool) other than the target |
| Schema.CatFeatures | app.py:28-31 | the guarded drop of the target yields exactly the labels of the object/category columns other than the target |
| Schema.Classify | app.py:16-31 | fails exactly when the target label is not a column; otherwise the kind is categorical exactly when the dtype is not numeric, and the target is in neither feature list |
| Schema.FeaturePartition | app.py:27-31 | on a well-formed table the target is in neither list, each list holds exactly the non-target columns of its dtype group, and both keep table order |
| Schema.FeaturesDisjoint | app.py:27-31 | no column is both a numeric and a categorical feature |
| Schema.CatForClass | app.py:291 | the class tab's categorical list fails (the unguarded `drop`) exactly when the target is not an object/category column |
| Schema.CatForClassAgrees | app.py:291 | the unguarded drop succeeds exactly for an object/category target and then gives the same list as the guarded one |
| Schema.ChurnScenario | app.py:16-31 | on a four-column table with a category target, the target is categorical, `age`/`income` are the numeric features and `city` the categorical one |
| Frame.Lookup | app.py:22 | `df[label]` finds nothing exactly when no column carries the label, and otherwise a column of the table with that label |
| Frame.MissingTotalBounds | app.py:60 | the missing-value total is at most rows × columns, and zero when every column is int or bool |
| Correlation.TopK | app.py:137-143 | fails with the target's label exactly when the target is not an int64/float64 column |
| Correlation.RankProperties | app.py:141-142 | `sort_values(ascending=False).head(k)` keeps min(k, n) entries of the series, descending with NaN last; every entry left out ranks no higher than every entry kept; with k ≥ n it keeps the whole series |
| Correlation.TopKProperties | app.py:135-143 | the ranking never contains the target; each entry is a non-target int64/float64 column with its coefficient against the target; length min(k, selected − 1); descending, NaN last; every int64/float64 feature left out ranks no higher than every one kept; distinct labels, all of them when k covers the selection |
| Correlation.DropKeyCorrWith | app.py:138-140 | dropping the target from the target's coefficient column leaves the coefficients of the selected non-target columns, in table order |
| Correlation.TopKDominance | app.py:137-143 | every int64/float64 feature left out of the as-written top-K ranks no higher than every feature kept |
| Correlation.BoolTargetRaises | app.py:137-139 | a bool target is classified numeric, yet the ranking as written fails on it, while the corrected ranking does not |
| Correlation.TopKOfFeatures | app.py:137-143 | the corrected ranking fails only when the target label is missing |
| Correlation.TopKOfFeaturesProperties | app.py:137-143 | the corrected ranking never fails on an existing target; each entry is a numeric feature with its coefficient against the target; no target; length min(k, numeric features); descending, NaN last; every numeric feature left out ranks no higher than every one kept; every feature once when k covers them |
| Correlation.TopKAgreesOn64BitTables | app.py:137-143 | wherever the as-written ranking succeeds on a table without narrow int/float columns, the corrected ranking gives the same result |
| Correlation.CheckPair | app.py:157-164 | the two-feature check computes nothing exactly when the two selections are equal; for two distinct selections it fails on an empty selectbox, then on the first missing label, and otherwise gives the coefficient of the two named columns |
| Correlation.CheckPairBounded | app.py:164 | the coefficient shown for two distinct features lies in [-1, 1], so its magnitude is at most 1 |
| Correlation.CheckPairSymmetric | app.py:157-164 | swapping the two selections does not change the result |
| Correlation.AbsCoef | app.py:180 | the absolute coefficient is NaN exactly when the coefficient is, and is otherwise the non-negative magnitude |
| Correlation.RedundantPairs | app.py:177-188 | the report is skipped exactly when there are fewer than two numeric features |
| Correlation.StackHas | app.py:183-186 | every cell of the matrix inside the band is stacked |
| Correlation.StackOnly | app.py:183-186 | only cells of the matrix inside the band are stacked |
| Correlation.RedundantPairsProperties | app.py:180-188 | every reported coefficient lies strictly between 0.8 and 1.0; no column is paired with itself; both labels are numeric features; (a, b) is reported exactly when (b, a) is; descending order; no pair of labels is reported twice; every in-band cell of the matrix is reported, so each in-band cell appears exactly once |
| Correlation.IdenticalFeaturesNotReported | app.py:180-186 | two features with identical values are never reported as a pair |
| Correlation.CheckPairInReport | app.py:163-188 | a pair whose checked coefficient lies in the band appears in the multicollinearity report with the same labels and magnitude |
| Grouping.Distinct | app.py:212 | the distinct present labels, each once, exactly those present in the column |
| Grouping.CategoriesOrdered | app.py:212 | the group keys are the present labels, each once, strictly ascending |
| Grouping.GroupObservations | app.py:201 | `groupby(cat_feature)[target]` fails exactly when nothing is selected or a label is missing; on a DataFrame it pairs every row's category with its target value |
| Grouping.Impact | app.py:201 | the median bar chart has one bar per observed category, ascending by median with NaN last |
| Grouping.Stability | app.py:212-213 | one row per distinct present category |
| Grouping.StabilityProperties | app.py:212-213 | one row per distinct present category, each the median/std/count aggregate of that category's target values; ascending median with NaN last; each count is the number of that category's rows with a present target, and the counts add up to all such rows; no median exactly when the count is 0, no std exactly when it is below 2 |
| Grouping.SumCountsCovers | app.py:212 | counting each label of a duplicate-free list that covers every present value counts every present entry once |
| Grouping.ImpactMatchesStability | app.py:201 | the median bar chart is the stability table's (category, median) column, in the same order |
| Classes.ValueCounts | app.py:262 | one entry per distinct present class |
| Classes.ValueCountsProperties | app.py:262 | each present class appears once, with its number of rows (never zero); most frequent first; the counts add up to the number of present values |
| Classes.ClassCounts | app.py:262 | `df[target].value_counts()` fails exactly when the target label is missing |
| Classes.ClassCountsTotal | app.py:262 | the class counts add up to the target's non-missing cells |
| Classes.Normalized | app.py:295 | one row per category that has a present class |
| Classes.NormalizedProperties | app.py:295 | one column per distinct present class; one row per category with a present class, strictly ascending; each row has one share per class, each in [0, 1], summing to 1, and each share is the class's count within the category over the category's counted rows |
| Classes.RowSumsToOne | app.py:295 | the shares of a category's row add up to one |
| Classes.CrosstabOf | app.py:295 | the crosstab fails exactly when nothing is selected or a label is missing |

## Left out

- Streamlit widgets and control flow are not modelled. This covers the uploader, the
  selectboxes, the slider, the tabs, `st.stop` when no target is selected, the metrics
  and the data previews. A selectbox choice is a parameter; an empty selectbox is
  `None`.
- Reading the CSV (`pd.read_csv`) is I/O. The table is a parameter. `WellFormed`
  assumes distinct column labels, as `read_csv` produces.
- All Plotly figures are left out: histograms, box plots, scatter plots with OLS
  trendlines, bar charts and heat maps. They are rendering and foreign numerics.
- The Pearson coefficient, the median and the standard deviation are parameters
  constrained by `ValidPearson`, `ValidMedian` and `ValidStd`. Their floating-point
  computation is not modelled.
- `@st.cache_data` around `df.corr()` is memoisation with no observable effect on the
  result.
- Tie order in sorts: pandas' default `sort_values` is an unstable quicksort. The model
  sorts with a stable insertion sort and claims only sortedness and permutation, never
  where ties fall.
- Grouping.Stability: for a `category` dtype, pandas 2.x `groupby` also lists unobserved
  categories (count 0, NaN median). The model lists only observed labels and orders
  group keys by string order rather than by category order.
- Classes.Normalized: pandas also sorts the crosstab's columns. The model keeps the
  classes in first-appearance order and claims nothing about column order.
- Classes.NormalizedProperties: the rows of a `category` feature are claimed in Python string order. pandas' `sort_index()` orders a CategoricalIndex by its declared category order. `pd.read_csv` never produces that dtype.
- Classes.ValueCounts: for a `category` target, pandas also lists the declared categories that no row holds, with count 0. Category columns are modelled with only their observed categories, so every entry has a positive count.
- Classes.Normalized: crosstab shares are exact reals, so a row sums to exactly 1. pandas divides in float64, so its rows sum to 1 only up to rounding. Category columns are again modelled with only their observed categories.
- Correlation.InBand: the band test 0.8 < |r| < 1.0 is exact real arithmetic, not a comparison against the binary64 value nearest 0.8.
- Correlation.Stack: assumes that `stack()` drops the NaN cells left by `where`, as the
  pandas 2.x default does. The `future_stack` implementation keeps them.
- Grouping.ValueOf: a boolean target value is grouped as 0 or 1. Cells of an object
  column that are not strings (mixed-type objects) are treated as missing labels.
- Correlation.TopK: accepts any k. The slider only produces k in [5, 20], and nothing
  depends on that range.
- The row and column counts shown on the overview tab (`df.shape`) are not modelled:
  they are plain sizes.

## Findings

| source | as written | input that shows it | evidently intended | confidence | as-written member | corrected member |
|---|---|---|---|---|---|---|
| app.py:137-139 | A bool column counts as numeric at line 22, so a True/False target takes the numeric branch. The top-K ranking then selects only `int64`/`float64` columns, so `.corr()[target]` raises `KeyError` for that target. | A table with columns `x: float64` and `flag: bool`, target `flag` (the table in `BoolTargetRaises`) | Rank the numeric features against any target the dashboard calls numeric | medium, not executed | Correlation.TopK (counterexample: Correlation.BoolTargetRaises) | Correlation.TopKOfFeatures (proved: Correlation.TopKOfFeaturesProperties) |

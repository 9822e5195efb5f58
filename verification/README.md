# Titanic dashboards: the data pipeline

The repository holds two Streamlit pages (`Lab3/dashboard.py`, `Lab8/dashboard.py`)
that load the seaborn `titanic` table and let a user filter and plot it. Under the
UI sits a small, deterministic record pipeline, and that pipeline is modelled here:

1. **Load-time cleaning** (`load_data`; Lab3 lines 17-20, identical in Lab8 lines 14-17):
   drop `embarked`, `who`, `adult_male`, `deck`, `embark_town`, `alive`; fill a missing
   `age` with the median of the present ages; replace `fare` by `log(fare)` when
   `fare > 0` and by `0` otherwise; map `sex` with `{'male': 0, 'female': 1}`.
2. **The sidebar filter** (Lab3 lines 47-51, identical in Lab8 lines 44-48): keep a row
   when `age_min <= age <= age_max` and `pclass` is among the ordinals of the selected
   class labels, with `'First' -> 1`, `'Second' -> 2` and every other label `-> 3`.
3. **The IQR outlier fence** (`detect_outliers`, Lab3 lines 106-112): the rows whose
   column value is `< Q1 - 1.5 IQR` or `> Q3 + 1.5 IQR`, with Q1 and Q3 from pandas'
   linear-interpolation quantile, called on the full cleaned table (lines 114-115).

Modules:

- `Wrappers` (`wrappers.dfy`): `Option`, standing for pandas' missing value (NaN).
- `Sequences` (`sequences.dfy`): counting, order-preserving subsequences, and `Select`,
  the boolean-mask indexing `df[mask]`, with its uniqueness and monotonicity lemmas.
- `Stats` (`stats.dfy`): `Series.quantile` (sorted column, rank `(n-1)q`, interpolation
  between the floor and ceiling ranks) and `Series.median`, with monotonicity of the
  quantile, median = 0.5-quantile, and the "half below, half above" property of the median.
- `Table` (`table.dfy`): the raw row and the cleaned row. Dropped columns are absent from
  the cleaned row; raw `age` and `fare` are `Option<real>`; cleaned `sex` is `Option<int>`.
- `Cleaning` (`cleaning.dfy`): `load_data` as the pure function `LoadData(raw, log)`.
- `Sidebar` (`sidebar.dfy`): the class-label mapping and the row filter.
- `Outliers` (`outliers.dfy`): quartile fences and `detect_outliers` over a numeric column.
- `Dashboard` (`dashboard.dfy`): the two pages as data flow, with the Lab3/Lab8 defaults,
  the computed view, and the independence of the outlier tables from the sidebar.

Modelling choices:

- `np.log` is the function parameter `log: real -> real`; only the `x > 0` guard is
  source logic. Numbers are `real`, so float rounding is not modelled.
- A missing fare (NaN) fails `x > 0` and becomes `0`, as the lambda does.
- An empty column has NaN quartiles in pandas; every comparison with NaN is false, so
  `detect_outliers` returns no rows. The model returns `None` quartiles and `[]`.
- An unknown class label maps to ordinal 3; it does not drop out of the class test.
- An unmapped sex label becomes a missing value; the original string is not kept.
- A raw fare in `(0, 1)` gives a negative cleaned fare, so `Cleaning.CleanedFareNonNegative`
  assumes no positive raw fare lies below 1 (and that the logarithm is non-negative from 1 on).

## Model

| member | source | states |
|---|---|---|
| Cleaning.SexCode | Lab3/dashboard.py:20 | 'male' gives 0, 'female' gives 1, and every other label gives a missing value (each direction of each case) |
| Cleaning.SexCodeRoundTrip | Lab3/dashboard.py:20 | a recognised label is recovered from its code, and each of the codes 0 and 1 comes from its label |
| Cleaning.FareTransform | Lab3/dashboard.py:19 | a present fare above 0 becomes its logarithm; a fare at or below 0, or a missing fare, becomes 0 |
| Cleaning.PresentAges | Lab3/dashboard.py:18 | the ages the median is taken over are exactly the present ages: each value occurs as often as rows hold it as their age, and there are as many as rows with an age |
| Cleaning.LoadData | Lab3/dashboard.py:17-20 | cleaning keeps row count and row order; present ages are unchanged and missing ages become the median of the present ages; fare is `log(fare)` above 0 and 0 otherwise; sex is encoded and never holds a code other than 0 or 1; passthrough columns are unchanged |
| Cleaning.ImputedAgeIsMedian | Lab3/dashboard.py:18 | a filled-in age lies between the smallest and largest present age, and at least half the present ages lie at or below it and at least half at or above it |
| Cleaning.CleanedFareNonNegative | Lab3/dashboard.py:19 | every cleaned fare is at least 0 when log is non-negative from 1 on and no positive raw fare is below 1 |
| Stats.QuantileOfSorted | Lab3/dashboard.py:107-108 | the linear-interpolation quantile lies between the sorted value at the floor of rank `(n-1)q` and the value at the next rank (the last value when the floor is the last rank), and equals the value at that rank when the rank is a whole number |
| Stats.Quantile | Lab3/dashboard.py:107-108 | a quantile exists exactly when the column is non-empty and has a column value at or below it and one at or above it (it lies between the minimum and the maximum) |
| Stats.QuantileExtremes | Lab3/dashboard.py:107-108 | the 0 quantile is at or below every value and the 1 quantile at or above every value |
| Stats.QuantileMonotone | Lab3/dashboard.py:107-109 | a higher quantile level never gives a smaller value, so Q1 <= Q3 and the IQR is non-negative |
| Stats.Median | Lab3/dashboard.py:18 | the median exists exactly when some value is present, and lies between the minimum and the maximum value |
| Stats.MedianIsHalfQuantile | Lab3/dashboard.py:18 | the odd/even middle-value median equals the 0.5 linear-interpolation quantile |
| Stats.MedianSplits | Lab3/dashboard.py:18 | at least half the values are at or below the median and at least half at or above it |
| Sequences.Select | Lab3/dashboard.py:47-51 | mask indexing returns an order-preserving subsequence holding every copy of every row the mask accepts and no other row |
| Sequences.SelectUnique | Lab3/dashboard.py:47-51 | mask indexing is the only order-preserving subsequence with that content |
| Sequences.SelectMonotone | Lab8/dashboard.py:44-48 | a weaker mask selects a supersequence of what a stronger mask selects |
| Sidebar.ClassOrdinal | Lab3/dashboard.py:50 | a label maps to 1 exactly when it is 'First', to 2 exactly when it is 'Second', and otherwise to 3 |
| Sidebar.SelectedOrdinals | Lab3/dashboard.py:50 | the selected ordinals lie within {1, 2, 3}; 3 is selected exactly when some label is neither 'First' nor 'Second'; an empty selection gives no ordinal |
| Sidebar.OrdinalName | Lab3/dashboard.py:42-50 | the label offered for ordinal k maps back to k |
| Sidebar.ClassTestByLabel | Lab3/dashboard.py:50 | for a row whose class label agrees with its ordinal, the class test passes exactly when its label is selected, or when it is third class and some selected label is neither 'First' nor 'Second' |
| Sidebar.FilterRows | Lab3/dashboard.py:47-51 | the filter returns an order-preserving subsequence with exactly the rows having `age_min <= age <= age_max` and a selected class, every copy of each; inverted bounds or an empty class selection give no rows |
| Sidebar.FilterRowsUnique | Lab3/dashboard.py:47-51 | any order-preserving subsequence of the table holding exactly the accepted rows, every copy of each, is the filter's result |
| Sidebar.FilterMonotone | Lab8/dashboard.py:44-48 | widening the age range or selecting more classes never removes a row and keeps the order of the rows kept before |
| Sidebar.AllClassesFilterByAgeOnly | Lab8/dashboard.py:37-48 | with all three classes selected and every pclass in 1..3, the filter is the age-range filter alone |
| Sidebar.FullRangeKeepsEverything | Lab3/dashboard.py:33-51 | when every pclass is 1, 2 or 3, with all classes selected and a range covering every age, the filter returns the table unchanged |
| Outliers.IqrFences | Lab3/dashboard.py:107-111 | the fences exist exactly for a non-empty column, are `Q1 - 1.5 IQR` and `Q3 + 1.5 IQR`, and enclose `[Q1, Q3]` |
| Outliers.DetectOutliers | Lab3/dashboard.py:106-112 | the result is an order-preserving subsequence with exactly the rows strictly outside the fences, every copy of each, all of them outside `[Q1, Q3]`; an empty table has none |
| Outliers.DetectOutliersUnique | Lab3/dashboard.py:106-112 | any order-preserving subsequence of the table holding exactly the rows outside the fences, every copy of each, is the result of outlier detection |
| Outliers.ConstantFences | Lab3/dashboard.py:107-111 | when every value equals v, both fences equal v |
| Outliers.ConstantColumnHasNoOutliers | Lab3/dashboard.py:106-112 | a column whose values are all equal yields no outliers |
| Dashboard.DefaultSettings | Lab8/dashboard.py:30-41 | the age slider starts at 0 to 80 on Lab8 (0 to 100 on Lab3, line 37 of its page) and the labels First, Second and Third are all preselected |
| Dashboard.Render | Lab3/dashboard.py:47-115 | the filtered rows are the sidebar filter's result for the settings, and the outlier tables, present only in the outlier mode of the Lab3 page, are outlier detection on fare and on age over the full cleaned table |
| Dashboard.OutliersIgnoreSidebar | Lab3/dashboard.py:114-115 | the outlier tables are the same for every sidebar setting and are outlier detection on fare and on age over the full table |
| Dashboard.DefaultSettingsFilterByAge | Lab8/dashboard.py:30-48 | when every pclass is 1, 2 or 3, the default widgets make the filter keep exactly the rows aged 0 to 80 on Lab8 (0 to 100 on Lab3), in order; a row with any other pclass fails `isin` and is dropped |

## Left out

- Streamlit UI (title, sidebar widgets, chart selectbox, checkboxes, `st.dataframe`): presentation; widget values are the plain `Settings` parameter.
- Seaborn and matplotlib plots (histogram, boxplots, heatmap): rendering through foreign libraries.
- `@st.cache_data`: framework memoization; `LoadData` is a pure function of the raw table.
- `sns.load_dataset('titanic')`: dataset fetching (I/O); the raw table is an input sequence.
- `describe()` and `corr()`: descriptive statistics computed inside pandas with no logic of their own in the pages (Lab8 line 80 also calls `corr()` without `numeric_only`, whose behaviour depends on the pandas version).
- The numeric value of `np.log` and float rounding: `log` is a parameter and numbers are `real`.
- Cleaning.LoadData: requires the table to be empty or to hold at least one age; the median of an all-missing age column is NaN and the resulting still-missing ages are not modelled.
- Outliers.DetectOutliers: offers only the numeric columns that never hold a missing value; `sex` (which can be missing after encoding) is not a column choice.
- Stats.Quantile: requires `0 <= q <= 1`; pandas raises an error outside that range and the pages only use 0.25 and 0.75.

# Linear_Model in Dafny

A model of the two computational modules of Linear_Model, with proofs about them:

- **descriptive statistics** (`Linearmodel/statistics.py`): mean, variance, standard deviation, median, mode, weighted mode and correlation of a column. It also models the `summary` of a table and the selection of columns highly correlated with a target;
- **the ordinary-least-squares estimator** (`Linearmodel/regression.py`): `OrdinaryLeastSquares` with its intercept flag, `fit`, `predict`, `get_coeffs` and the coefficient of determination R².

Numbers are exact Dafny `real`s. A table is a sequence of named columns, each holding either numbers or text. Loading fills missing cells with 0 (`Linearmodel/loading.py:38`), so every column is a complete sequence.

Two numeric routines come in as parameters, each described by what it computes:

- the square root (Python `** 0.5`) is any function `sqrt` with `sqrt(x) ≥ 0` and `sqrt(x)² = x` on non-negative `x` (`Roots.IsSquareRoot`);
- the matrix inverse (`np.linalg.inv`) is the caller's answer `gramInverse`. When present, it must be a two-sided inverse of DᵀD. It is absent exactly when DᵀD has no inverse (`Regression.InverseOfGram`).

Where an operation takes a table and a column name (weighted mode, feature selection), an absent or unusable column is a `Failure` value of a `Result`. Where it fails on its values (an empty weighted-mode column, `list.remove`, the estimator's shape and singularity errors), that is a `Failure` too. Mean, standard deviation, median, variance, mode and correlation are modelled on a column's values, so the lookup `data[column]` that precedes them is not part of their model.

Modules, one per file:

| file | module | what it holds |
|---|---|---|
| results.dfy | Results | `Option`, `Result` |
| sums.dfy | Sums | sums, squared and paired deviations |
| roots.dfy | Roots | the square-root contract and its uniqueness |
| moments.dfy | Moments | mean, variance, standard deviation |
| sorting.dfy | Sorting | insertion sort, `Sorted`, uniqueness of the sorted permutation |
| median.dfy | Medians | median |
| counting.dfy | Counting | occurrence counts, first index, distinct values in first-seen order |
| modes.dfy | Modes | mode (the two loops of `calculate_mode`) |
| frame.dfy | Frame | tables, columns, errors, lookup |
| weighted.dfy | Weighted | weighted mode |
| correlation.dfy | Correlations | Pearson correlation |
| pairs.dfy | Pairs | the i < j index-pair loop of `summary` |
| summary.dfy | Summary | `summary` |
| selection.dfy, selection_example.dfy | Selection, SelectionExample | `find_highly_correlated_variables` |
| linalg.dfy | LinearAlgebra | vectors, matrices, `@`, `.T`, the ones column |
| regression.dfy, regression_example.dfy | Regression, RegressionExample | the estimator |

## Model

| member | source | states |
|---|---|---|
| Sums.SumSqDev | Linearmodel/statistics.py:53 | The sum of squared deviations from any centre is never negative. |
| Sums.SumCrossDevSymmetric | Linearmodel/statistics.py:74 | Pairing two columns with `zip` is symmetric: swapping the columns and their means leaves the correlation numerator unchanged. |
| Sums.SumCrossDevSelf | Linearmodel/statistics.py:74-75 | A column paired with itself gives as numerator exactly its own sum of squared deviations. |
| Roots.RootUnique | Linearmodel/statistics.py:54 | Any non-negative number whose square is x is the value the square root gives for x. |
| Moments.Mean | Linearmodel/statistics.py:37-38 | An empty column has mean 0.0; otherwise mean × count equals the sum. |
| Moments.MeanOfConstant | Linearmodel/statistics.py:37-38 | A non-empty column of one repeated value has that value as its mean. |
| Moments.Variance | Linearmodel/statistics.py:118-121 | The variance is never negative, is 0 for an empty column, and otherwise times the count equals Σ(x − mean)²: the population variance, denominator n. |
| Moments.VarianceOfConstant | Linearmodel/statistics.py:118-121 | A constant column has variance 0. |
| Moments.Std | Linearmodel/statistics.py:51-54 | The standard deviation is non-negative and its square is the variance. |
| Moments.StdUnique | Linearmodel/statistics.py:51-54 | The standard deviation is the only non-negative number whose square is the variance. |
| Moments.StdOfConstant | Linearmodel/statistics.py:51-54 | A constant column has standard deviation 0. |
| Moments.OneToFiveMoments | Tests/test_statistics.py:9-32 | For [1, 2, 3, 4, 5]: mean 3, variance 2, and the standard deviation squares to 2. |
| Sorting.SortedOf | Linearmodel/statistics.py:94 | Sorting yields an ascending permutation of the column. |
| Sorting.SortedUnique | Linearmodel/statistics.py:94 | Two ascending sequences with the same contents are equal, so the sorted column is determined by its contents. |
| Sorting.SortedOfPermutation | Linearmodel/statistics.py:94 | Permuted columns sort to the same sequence. |
| Medians.Median | Linearmodel/statistics.py:93-103 | An empty column has median 0.0; a column of odd length has one of its own values as median. |
| Medians.MedianOfSorted | Linearmodel/statistics.py:95-103 | On a sorted column: odd length gives the middle value; even length gives the average of the two middle values. |
| Medians.MedianSplitsColumn | Linearmodel/statistics.py:93-103 | At most half of the values lie strictly below the median, and at most half strictly above. |
| Medians.MedianPermutationInvariant | Linearmodel/statistics.py:93-94 | Reordering the column does not change the median. |
| Medians.MedianExample | Tests/test_statistics.py:24-27 | The median of [1, 3, 2, 5, 4] is 3. |
| Counting.Keys | Linearmodel/statistics.py:137-144 | The keys of the count dictionary are exactly the column's values, each once. |
| Counting.KeysInFirstSeenOrder | Linearmodel/statistics.py:140-144 | Dictionary keys come in the order of each value's first occurrence in the column. |
| Modes.CountOccurrences | Linearmodel/statistics.py:137-144 | The counting loop builds a dictionary whose keys are the column's values in first-seen order, each mapped to its number of occurrences. |
| Modes.FirstMaximum | Linearmodel/statistics.py:147-153 | The strict `>` scan returns None only for no keys; otherwise its key has the largest count, and every earlier key has a strictly smaller count. |
| Modes.FirstMaximumIsFirstMode | Linearmodel/statistics.py:147-153 | The key the scan keeps is the first-seen value of maximal count. |
| Modes.Mode | Linearmodel/statistics.py:136-155 | The mode is None exactly for an empty column. Otherwise it occurs in the column with maximal count, and every value seen before it occurs strictly less often. |
| Modes.FirstModeUnique | Linearmodel/statistics.py:147-153 | That description fixes a single value, so ties are broken by first occurrence. |
| Modes.ModeExample | Tests/test_statistics.py:34-37 | The mode of [1, 2, 2, 3, 4] is 2. |
| Frame.Lookup | Linearmodel/statistics.py:169-170 | Looking up a column fails exactly when no column has that name, with an unknown-column error; otherwise it returns a column of that name. |
| Frame.NumericColumn | Linearmodel/statistics.py:201-202 | A numeric column's values are returned; absent and text columns are errors. |
| Weighted.MaxCount | Linearmodel/statistics.py:179 | The top count is at least every value's count and, for a non-empty column, is some value's count. |
| Weighted.WithCount | Linearmodel/statistics.py:179 | The values tied for a count are exactly the listed values with that count, without repeats. |
| Weighted.WeightSumPositive | Linearmodel/statistics.py:181-182 | Σ count(x) over the rows is at least the number of rows, so the tie quotient never divides by 0. |
| Weighted.WeightedMode | Linearmodel/statistics.py:173-185 | The weighted mode fails exactly for an empty column, where `idxmax` of an empty count table raises. |
| Weighted.WeightedModeOfUniqueTop | Linearmodel/statistics.py:176-185 | When one value alone has the top count, the weighted mode is that value, which is also the mode. |
| Weighted.WeightedModeOfTie | Linearmodel/statistics.py:179-183 | When two values share the top count, the weighted mode is Σ x·count(x) / Σ count(x) over every row, with a positive denominator. |
| Weighted.WeightedModeOf | Linearmodel/statistics.py:169-185 | An absent column name gives an unknown-column error; a numeric column gives its weighted mode. |
| Weighted.WeightedExample | Tests/test_statistics.py:39-42 | The weighted mode of [1, 1, 2, 2, 2, 3, 4] is 2. |
| Weighted.TieExample | Linearmodel/statistics.py:179-183 | With the tie in [1, 1, 2, 2] the weighted mode is (1·2 + 1·2 + 2·2 + 2·2) / 8 = 1.5. |
| Moments.SquareSum | Linearmodel/statistics.py:75 | Σ(x − mean)², a factor under the root of the correlation denominator and the total sum of squares of R², is never negative. |
| Correlations.Correlation | Linearmodel/statistics.py:68-79 | A zero product under the root gives exactly 0.0; otherwise correlation × √(Sxx·Syy) equals the numerator Σ(x − x̄)(y − ȳ). |
| Correlations.CorrelationSymmetric | Linearmodel/statistics.py:68-79 | The correlation of x with y equals that of y with x. |
| Correlations.CorrelationWithItself | Linearmodel/statistics.py:68-79 | A non-constant column has correlation 1 with itself. |
| Correlations.CorrelationOfSquareRadicand | Linearmodel/statistics.py:75-77 | When Sxx·Syy = a² with a > 0, the correlation is the numerator divided by a. |
| Correlations.CorrelationExample | Tests/test_statistics.py:19-22 | [1, 2, 3] and [4, 5, 6] have correlation 1. |
| Pairs.RowsBeforeClosedForm | Linearmodel/statistics.py:214-215 | The pairs produced before outer index i number i·(2k − i − 1)/2. |
| Pairs.CorrelationPairs | Linearmodel/statistics.py:213-219 | The nested loop yields k(k − 1)/2 pairs. Each has i < j < k, every such pair occurs, and they come in strictly increasing lexicographic order, so there are no repeats, no reversed pairs and no self-pairs. |
| Summary.NumericColumns | Linearmodel/statistics.py:201-202 | The summarised columns are exactly the numeric columns of the table. |
| Summary.NumericColumnsAppend | Linearmodel/statistics.py:201-202 | A column added at the end of the table contributes its entry, when numeric, at the end: the numeric columns keep table order. |
| Summary.DescribeColumn | Linearmodel/statistics.py:203-210 | A column's entry fails exactly for an empty column. Otherwise it holds the column's mean, standard deviation, median, variance, mode and weighted mode. |
| Summary.DescribeAll | Linearmodel/statistics.py:201-210 | Every numeric column gets its own entry, in order, unless one is empty. |
| Summary.CorrelateAll | Linearmodel/statistics.py:213-219 | There is one correlation entry per pair of numeric columns i < j, k(k − 1)/2 in all. Each entry names the two columns and holds their correlation. The entries come in the loops' order (0, 1), (0, 2), …, (1, 2), …: the order the dictionary receives them. |
| Summary.Summarize | Linearmodel/statistics.py:198-221 | The summary fails exactly when some numeric column is empty. Otherwise it describes every numeric column in table order, and correlates every pair of them in the loops' order. |
| Selection.Qualifying | Linearmodel/statistics.py:236-237 | A name is kept exactly when its numeric column has a defined correlation with the target whose absolute value exceeds the threshold. |
| Selection.QualifyingInOrder | Linearmodel/statistics.py:237 | The kept names are in table order. |
| Selection.QualifyingDistinct | Linearmodel/statistics.py:237 | With distinct column names, no name is kept twice. |
| Selection.RemoveFirst | Linearmodel/statistics.py:238 | `list.remove` fails exactly when the name is absent; otherwise it deletes only the name's first occurrence. |
| Selection.RemoveFirstOfDistinct | Linearmodel/statistics.py:238 | Removing a present name from a list without repeats leaves exactly the other names. |
| Selection.FindHighlyCorrelated | Linearmodel/statistics.py:236-239 | A target that is not a numeric column of the table is an unknown-column error (the KeyError of `data.corr()[target]`). For a numeric target, the only possible error is that `list.remove` did not find the target. |
| Selection.FindHighlyCorrelatedByDefault | Linearmodel/statistics.py:224 | The selection at the default threshold 0.55 keeps `FindHighlyCorrelated`'s two error cases. With unique names and a numeric target, a successful result holds exactly the other numeric columns whose correlation with the target exceeds 0.55 in absolute value. |
| Selection.FindHighlyCorrelatedSelects | Linearmodel/statistics.py:236-239 | For a numeric target, with unique column names: the selection fails exactly when the target does not pass its own threshold test. Otherwise it lists, in table order, exactly the other numeric columns whose correlation with the target passes. |
| SelectionExample.SelectionExample | Tests/test_statistics.py:50-54 | With target [1..5], col1 = [1..5], col2 = [5..1] and threshold 0.9, the selection is [col1, col2]. |
| LinearAlgebra.Augment | Linearmodel/regression.py:45 | Each row gains a leading 1 and keeps its entries after it. |
| LinearAlgebra.Transpose | Linearmodel/regression.py:48 | The transpose has entry (k, i) equal to entry (i, k) of the matrix. |
| LinearAlgebra.MatMul | Linearmodel/regression.py:49 | Entry (i, k) of a product is row i of the left factor dotted with column k of the right. |
| LinearAlgebra.MatVecOfProduct | Linearmodel/regression.py:49 | Multiplying a vector by a product of matrices is multiplying by the factors in turn: (A·B)·v = A·(B·v). |
| LinearAlgebra.MatVecIdentity | Linearmodel/regression.py:49 | The identity matrix leaves a vector unchanged. |
| LinearAlgebra.DotWithLeadingOne | Linearmodel/regression.py:61-64 | Dotting a row with a leading 1 gives the first coefficient plus the dot product of the rest. |
| Regression.New | Linearmodel/regression.py:33-34 | A new estimator keeps the intercept flag and has no coefficients. |
| Regression.NewDefault | Linearmodel/regression.py:26 | The default estimator fits an intercept and has no coefficients. |
| Regression.GetCoeffs | Linearmodel/regression.py:73 | `get_coeffs` returns the stored coefficients as they are: nothing exactly when none are stored. |
| Regression.CoeffsLifecycle | Linearmodel/regression.py:73 | `get_coeffs` gives nothing before a fit, and after a successful fit a coefficient vector that solves the normal equations. |
| Regression.Design | Linearmodel/regression.py:44-45 | The design keeps the row count. With an intercept, each row is the input row behind a leading 1 and the width grows by one; without, the design is X itself. |
| Regression.SolvesNormalEquations | Linearmodel/regression.py:48-49 | (DᵀD)⁻¹·Dᵀ·y satisfies the normal equations (DᵀD)·β = Dᵀ·y. |
| Regression.Fit | Linearmodel/regression.py:44-49 | A singular DᵀD is an error, checked before the length of y, and a mismatched y is an error. On success the intercept flag is kept and the new coefficients solve the normal equations. |
| Regression.FitForgetsPreviousCoeffs | Linearmodel/regression.py:44-49 | A fit overwrites whatever coefficients were stored before. |
| Regression.FitRecoversExactModel | Linearmodel/regression.py:49 | When y = D·β exactly, fitting yields β. |
| Regression.Predict | Linearmodel/regression.py:61-64 | An unfitted estimator is an error, and so is a coefficient count that does not match the design width. Otherwise there is one prediction per row: the design row dotted with the coefficients. |
| Regression.PredictWithIntercept | Linearmodel/regression.py:61-64 | With an intercept, each prediction is β₀ plus the input row dotted with the remaining coefficients. |
| Regression.PredictAfterExactFit | Linearmodel/regression.py:44-64 | Predicting on the training rows of an exact linear model gives back the responses. |
| Regression.ResidualSum | Linearmodel/regression.py:88 | The residual sum of squares is never negative. |
| Regression.ResidualOfExact | Linearmodel/regression.py:88 | Predictions equal to the responses leave residual sum 0. |
| Regression.DeterminationCoefficient | Linearmodel/regression.py:86-90 | Prediction errors pass through, and mismatched lengths are an error. Otherwise (1 − R²)·SStot = SSres, R² ≤ 1, and R² = 1 exactly when SSres = 0. |
| Regression.ExactFitHasUnitDetermination | Linearmodel/regression.py:86-90 | An exact linear model, fitted and scored on its own rows, has R² = 1. |
| RegressionExample.ExampleInverseOfGram | Tests/test_regression.py:9-13 | The Gram matrix of the test design with an intercept is invertible, and the inverse is given explicitly. |
| RegressionExample.FitExample | Tests/test_regression.py:9-16 | Fitting X = [[1,1],[1,2],[2,2],[2,3]], y = X·[1,2] + 3 with an intercept gives the coefficients [3, 1, 2]. |
| RegressionExample.PredictExample | Tests/test_regression.py:18-26 | With coefficients [3, 1, 2], the rows [3, 5] and [1, 2] predict [16, 8]. |
| RegressionExample.DeterminationExample | Tests/test_regression.py:28-34 | On the training data, R² of the fitted estimator is 1. |

## Left out

- Missing values. Loading fills them with 0. The `dropna` and `is not None` filters inside the statistics, and the effect of independent `dropna` on `zip` pairing, are pandas NaN semantics and are not modelled.
- Column lookup by name in mean, standard deviation, median, variance, mode and correlation, with the KeyError for an absent name, is not modelled. These statistics take the column's values.
- Table shape. A DataFrame's columns all have the same length, which the model's tables do not enforce. Where columns differ in length, `Correlations.Correlation` pairs values as `zip` does, stopping at the shorter column.
- Column types. pandas dtype detection (`np.issubdtype`, `select_dtypes`) is replaced by tagging each column as numbers or text. pandas 1.x `data.corr()` treats a bool column as numeric, but `summary` does not: `np.issubdtype(bool, np.number)` is false (`Linearmodel/statistics.py:202`) and `select_dtypes(include=[np.number])` drops it (`:213`). So a bool column could be selected by `find_highly_correlated_variables` without appearing in the summary. The model has no bool columns.
- Weighted.WeightedModeOf: a text column is reported as `NotNumeric`. pandas would compute a text mode, or fail in the tie quotient. Only numeric columns are modelled.
- Summary.Summarize: Python builds one dictionary keyed by column names and by "Correlation A vs B" strings. The model returns the column entries and the pair entries as two lists, with the names kept in each entry.
- Square root and matrix inverse: these are parameters described by their defining equations, not computed. Inverting a matrix is not modelled.
- Moments.Variance: the converse, that variance 0 implies a constant column, is not proved. Neither is the identity Σ(x − m)² = Σx² − n·m².
- Correlations.Correlation: the bound |r| ≤ 1 (Cauchy–Schwarz) is not proved.
- Selection: `data.corr()` is modelled with the pandas 1.x default `numeric_only=True`, so text columns take no part and never qualify. Since pandas 2.0, `corr()` raises on a text or date column instead, and that failure is not modelled. Date columns do not exist in the model's tables.
- Selection.FindHighlyCorrelatedSelects: duplicate column names are excluded by a precondition. With them, pandas' `corr()[target]` is a table rather than a column.
- Selection: pandas `data.corr()` yields NaN for a zero-variance pair, and NaN never exceeds the threshold. The model therefore treats a zero denominator as "not selected" rather than as correlation 0.
- Regression.DeterminationCoefficient: SStot = 0, where numpy returns NaN or infinity, is excluded by a precondition. numpy's broadcasting of a length-1 y or prediction against a longer one is reported as a shape mismatch instead.
- Regression.Fit: numpy raises for ragged or non-2-D arrays. The model requires a rectangular X with a given number of columns.
- Regression: least-squares optimality is not proved, that is, that the normal-equation solution minimises the residual sum. The coefficients are characterised by the normal equations.
- Floating point: IEEE rounding is not modelled. All arithmetic is exact, so the tests' approximate comparisons become exact equalities.
- `Linearmodel/loading.py`, `Linearmodel/visualization.py`, `main.py` and `Linearmodel/setup.py` are not part of this model: they are CSV and date parsing, plotting, orchestration with printing, and packaging.

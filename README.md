# Linear-regression analysis of sample sheets, in Dafny

This project models the analysis core of `script.js`, a browser page that reads
an Excel workbook and fits a straight line to each of four sample sheets
(`Amostra1` … `Amostra4`). For each sheet it reports the line `y = slope·x + intercept`
and its coefficient of determination R². It also reports the mean R² over
the four expected samples. The model has three modules, one for each part of
that code:

- `Extraction` (`extraction.dfy`) models `extractXY`. A method walks the rows
  and appends the two cells of every row that has exactly two cells. It is
  proved against the function `Column` that states its result. Lemmas then show what
  the series contain:
  - one entry per two-cell row, in row order;
  - x[k] and y[k] from the same row;
  - other rows ignored wherever they stand.
- `Regression` (`regression.dfy`) models `linearRegression` and
  `calculateRSquared` as pure functions over exact reals.
  - The closed form divides by `n·Σx² − (Σx)²` and by `n`. JavaScript turns a
    zero divisor into NaN or ±Infinity; here that outcome is explicit, as
    `DegenerateFit` for the line and `DegenerateScore` for R².
  - The lemmas characterise exactly when that happens: no points or all x
    equal for the line; no points or all y equal for R².
  - They prove that the fitted line satisfies the least-squares normal
    equations and that it recovers points lying on a line.
  - They prove that a finite R² lies in [0, 1], and that, when y is not
    constant, R² is 1 exactly when every residual is zero. With constant y
    the R² is NaN even when every residual is zero, as 1 − 0/0 is.
- `Aggregation` (`aggregation.dfy`) models the body of the file-load handler
  in `processFile`.
  - It is a loop over the expected sample names. The `forEach` callback
    becomes the method `VisitSample`, which updates the record list and the
    running total `totalR2`.
  - At the end the total is divided by the number of *all* expected samples.
    A sample the workbook lacks gets an `Unavailable` ("N/A") record and adds
    nothing to the total.
  - NaN in any found sample's R² makes the total and the mean NaN, as
    floating-point addition does.

The facts about the mean are stated in two steps:
1. Lemmas about `TotalR2` over the records: bounds, NaN propagation, and that
   missing samples add nothing.
2. Lemmas about `MeanR2` of any total: its bounds and the zero case.

`ProcessSamples` connects the two by ensuring `meanR2 == MeanR2(TotalR2(records), |samples|)`.

## Model

| member | source | states |
|---|---|---|
| Extraction.ExtractXY | script.js:55-68 | x and y are exactly cell 0 and cell 1 of the rows with exactly two cells, in row order (`Column`); its loop keeps this for every prefix of the rows |
| Extraction.Column | script.js:60-65 | each series has one entry per two-cell row, so x and y always have equal length, equal to the number of two-cell rows |
| Extraction.PairIndices | script.js:60-61 | lists one position per two-cell row, and every listed position is a two-cell row |
| Extraction.ColumnReadsPairRows | script.js:61-63 | the k-th entry of x (of y) is cell 0 (cell 1) of the k-th two-cell row, so x[k] and y[k] come from the same row |
| Extraction.PairIndicesIncreasing | script.js:60 | the rows are read in increasing order, so the series keep row order |
| Extraction.PairIndicesComplete | script.js:61 | every two-cell row is read; no observation is dropped |
| Extraction.ColumnOfConcat | script.js:60-65 | extracting from two stacked tables gives the two extractions, stacked |
| Extraction.MalformedRowIgnored | script.js:61 | a row with fewer or more than two cells changes neither series, wherever it stands |
| Extraction.NoPairsNoPoints | script.js:61 | a table without two-cell rows yields empty series |
| Extraction.MixedRowsExample | script.js:55-68 | rows [1,2], [3], [4,5,6], [7,8] give x = [1,7] and y = [2,8] |
| Regression.LinearRegression | script.js:71-87 | the fit is the closed-form least-squares line of the totals n, Σx, Σy, Σxy, Σx²; the reported R² is `RSquared` of that line on the same points, and NaN when the fit is NaN; a finite R² comes with a line and lies in [0, 1] |
| Regression.TotalsOf | script.js:72-76 | the five totals n, Σx, Σy, Σxy, Σx², each a left fold from 0 as the `reduce` calls are; `SumOfResiduals`, `ProductsOfResiduals` and `DenominatorNonNegative` state what they satisfy |
| Regression.SolveLine | script.js:79-80 | slope (n·Σxy − Σx·Σy)/(n·Σx² − (Σx)²) and intercept (Σy − slope·Σx)/n, NaN on a zero divisor; `SolveLineIffSolves` states that it yields (a, b) exactly when (a, b) is the unique solution of the normal equations |
| Regression.LeastSquares | script.js:72-80 | the closed form over the totals of the points; `DegenerateIffConstantX`, `NormalEquations` and `RecoversCollinear` state that it is NaN exactly for no points or constant x, that its residuals satisfy the normal equations, and that it returns the line through collinear points |
| Regression.Mean | script.js:91 | n copies of the mean add up to Σy |
| Regression.SsTotal | script.js:92 | Σ(y − ȳ)² is never negative; `SpreadZeroIffConstant` states it is 0 exactly when y is constant |
| Regression.SsResidual | script.js:93 | Σ(y − (slope·x + intercept))² is never negative; `SumOfSquaresZero` states it is 0 exactly when every point is on the line |
| Regression.DenominatorNonNegative | script.js:79 | the slope denominator n·Σx² − (Σx)² is never negative |
| Regression.ZeroDenominatorZeroNumerator | script.js:79 | when the slope denominator n·Σx² − (Σx)² is 0, so is the numerator n·Σxy − Σx·Σy: the slope is 0/0 (NaN), never ±Infinity |
| Regression.RSquared | script.js:90-95 | R² = 1 − ssRes/ssTot of any line, when finite, never exceeds 1; no points or constant y give the NaN/−Infinity outcome |
| Regression.SolveLineIffSolves | script.js:79-80 | the closed form gives the line (a, b) exactly when the denominator and n are non-zero and (a, b) solve the normal equations a·(n·Σx² − (Σx)²) = n·Σxy − Σx·Σy and n·b = Σy − a·Σx |
| Regression.SolveLineSolves | script.js:79-80 | whenever the closed form yields a line, that line solves the normal equations |
| Regression.EmptyDenominator | script.js:72-79 | with no points the slope denominator is 0 |
| Regression.DenominatorIsScaledSpread | script.js:73-79 | n·Σx² − (Σx)² equals n·Σ(x − x̄)² |
| Regression.SpreadZeroIffConstant | script.js:91-92 | Σ(s − s̄)² is 0 exactly when all values are equal |
| Regression.DegenerateIffConstantX | script.js:79-80 | the slope is NaN exactly when there are no points or all x values are equal |
| Regression.CoefficientEquations | script.js:72-80 | a fitted line has at least one point and its slope and intercept solve the normal equations over the totals |
| Regression.NormalEquationsFor | script.js:72-80 | a line solving the normal equations has residuals summing to 0 and uncorrelated with x (Σx·e = 0) |
| Regression.NormalEquations | script.js:72-80 | the fitted line's residuals sum to 0 and are uncorrelated with x |
| Regression.ZeroResidualTotalsSolve | script.js:72-80 | conversely, a line whose residuals sum to 0 and are uncorrelated with x solves the normal equations |
| Regression.CollinearResidualTotals | script.js:73-76 | points lying on y = a·x + b leave residual totals Σe and Σx·e of 0 |
| Regression.RecoversCollinear | script.js:72-80 | points lying on y = a·x + b with at least two distinct x values are fitted by exactly that line |
| Regression.SumOfResiduals | script.js:73-74 | Σ(y − a·x − b) = Σy − a·Σx − n·b |
| Regression.ProductsOfResiduals | script.js:75-76 | Σx·(y − a·x − b) = Σxy − a·Σx² − b·Σx |
| Regression.SpreadExpand | script.js:91-92 | Σ(s − m)² = Σs² − 2m·Σs + n·m² for any centre m |
| Regression.SumOfSquaresNonNegative | script.js:92-93 | a sum of squares is never negative |
| Regression.SumOfSquaresZero | script.js:93 | a sum of squares is 0 exactly when every term is 0 |
| Regression.SquaresOfSplit | script.js:92-93 | Σ(y − m)² = Σe² + Σ(ŷ − m)² + 2·Σe·(ŷ − m) for any line and centre |
| Regression.CrossTerms | script.js:92-93 | Σe·(ŷ − m) = a·Σx·e + (b − m)·Σe |
| Regression.VariationDecomposes | script.js:91-93 | for the fitted line, ssTot = ssRes + Σ(ŷ − ȳ)² |
| Regression.FitNoWorseThanMean | script.js:91-94 | the fitted line has ssRes ≤ ssTot, so its finite R² is at least 0 |
| Regression.PerfectFitIffZeroResiduals | script.js:93-94 | when y is not constant, R² is exactly 1 if and only if every point lies on the line |
| Regression.PerfectRegressionIffOnFittedLine | script.js:83-86 | when y is not constant, the R² that `linearRegression` reports is exactly 1 if and only if every point lies on the fitted line |
| Regression.DegenerateScoreIffConstantY | script.js:91-94 | R² is NaN/−Infinity exactly when there are no points or all y values are equal |
| Regression.MeanOfConstant | script.js:91 | the mean of equal values is that value |
| Regression.DoublingExample | script.js:71-95 | (1,2), (2,4), (3,6) give y = 2x + 0 with R² = 1 |
| Regression.StaircaseExample | script.js:71-95 | (0,0), (1,0), (2,1), (3,1) give y = 0.4x − 0.1 with R² = 0.8 |
| Aggregation.Analyse | script.js:31-35 | a sheet's fit is the least-squares line of its extracted series, its R² is `RSquared` of that line on those series (NaN with a NaN fit), and a finite R² lies in [0, 1] |
| Aggregation.RecordFor | script.js:28-43 | the record carries the sample's name; it is "N/A" exactly when the workbook lacks the sheet, and otherwise holds the sheet's fit and R² |
| Aggregation.AddScore | script.js:37 | the sum is finite exactly when both operands are, as NaN propagates through `+=`; a finite sum is the total plus the score |
| Aggregation.TotalR2 | script.js:24-37 | the accumulator starts at 0 and adds each record's contribution in order; `TotalDegenerateIff`, `MissingSamplesAddNothing` and `TotalBounds` state when it is NaN, that missing samples add nothing, and its bounds |
| Aggregation.MeanR2 | script.js:47 | the mean is finite exactly when the total is finite and at least one sample is expected (0 / 0 is NaN); a finite mean times the number of expected samples gives back the total |
| Aggregation.FoundRecords | script.js:29-39 | keeps exactly the records of found samples: every kept record is analysed and comes from the run, and every analysed record of the run is kept |
| Aggregation.FoundIndices | script.js:27-29 | the k-th found record is the run's record at the k-th listed position, one position per found record |
| Aggregation.FoundIndicesIncreasing | script.js:27 | the positions increase, so the found records keep the order of the sample list |
| Aggregation.FoundIndicesComplete | script.js:29 | every analysed record's position is listed |
| Aggregation.VisitSample | script.js:27-44 | one callback step appends the sample's record and adds its R² to the total when the sheet is found, nothing when it is missing |
| Aggregation.ProcessSamples | script.js:22-47 | one record per expected sample, in the order of the list; every found score in [0, 1] or NaN; the mean is the total over all records divided by the number of expected samples |
| Aggregation.ProcessWorkbook | script.js:22 | the run over the fixed list `Amostra1` … `Amostra4` yields four records in that order, and the total divided by 4 |
| Aggregation.MissingSamplesAddNothing | script.js:37-43 | the total over all records equals the total over the found ones alone |
| Aggregation.TotalDegenerateIff | script.js:37 | the total is NaN exactly when some found sample's R² is NaN |
| Aggregation.TotalAtMostCount | script.js:37 | with every score in [0, 1], a finite total lies between 0 and the number of records |
| Aggregation.TotalBounds | script.js:37-43 | a finite total lies between 0 and the number of found samples |
| Aggregation.MeanOfBoundedTotal | script.js:47 | dividing such a total by the number of all expected samples gives a mean in [0, 1] that is at most the share of samples found |
| Aggregation.MeanDegenerateIff | script.js:47 | the mean is NaN exactly when no sample is expected or some found sample's R² is NaN |
| Aggregation.NothingFoundTotalZero | script.js:24-43 | when no expected sheet is present the total stays 0 |
| Aggregation.MeanOfZero | script.js:47 | a zero total over a positive number of samples gives mean 0, not NaN |
| Aggregation.HalfFoundExample | script.js:37-47 | one found sample with R² 0.8 and one missing give mean 0.4 |
| Aggregation.StaircaseColumns | script.js:60-65 | the staircase sheet yields x = [0,1,2,3] and y = [0,0,1,1] |
| Aggregation.StaircaseRun | script.js:27-47 | a workbook holding only the staircase sheet, looked up under two names, yields the fit y = 0.4x − 0.1 with R² 0.8, then "N/A", and mean 0.4 |

## Left out

- Page wiring and rendering are not modelled: the click handler, `document.getElementById`, `alert` and `displayResults` (`script.js:2`, `6-13`, `98-111`). They are user interface only.
- Reading the file with `FileReader` and `Uint8Array` is not modelled (`script.js:16-19`, `51`). It is asynchronous I/O; the model receives the already-read workbook as a parameter.
- `XLSX.read` and `XLSX.utils.sheet_to_json` are library calls outside this code (`script.js:21`, `31`).
  - A workbook is a map from sheet name to its rows.
  - `workbook.Sheets[sample]` being truthy becomes map membership.
- `parseFloat` is not modelled (`script.js:62-63`). Cells are already numbers (`real`). A text cell, such as a header row "x", "y", would become NaN in the original; the model cannot express such a cell.
- `toFixed` formatting of the equation and R² strings is not modelled (`script.js:39`, `110`). A record holds the numbers it would format.
- IEEE-754 floating point is not modelled; arithmetic is exact over `real`.
  - Rounding is not modelled.
  - NaN and ±Infinity appear only as the explicit `DegenerateFit` and `DegenerateScore` outcomes of the divisions.
  - Over the reals a zero slope denominator always comes with a zero numerator (`Regression.ZeroDenominatorZeroNumerator`), so the slope is NaN, never ±Infinity.
- Regression.LinearRegression: requires the two series to have equal length. Its only caller passes the output of `extractXY`, whose lengths always agree (`Extraction.Column`); the original would read `undefined` past the shorter series.
- Regression.RSquared: the same length requirement, for the same reason.
- Aggregation.ProcessSamples: the bounds on the mean are not repeated in its contract. They follow from `TotalBounds` and `MeanOfBoundedTotal` applied to its `records` and `meanR2`.

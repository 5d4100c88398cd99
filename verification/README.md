# Economic web platform — a verified Dafny model

The economic web platform shows World Bank indicators (Gini index, income quintile shares,
GDP and others) as charts. Three parts carry its logic:

- a FastAPI analytics service. It computes Lorenz curves, Gini trends and rankings,
  correlations and forecasts. It also ingests baseline data into its own database.
- a Django service. It manages accounts, roles, the user agreement and saved presets,
  and it answers token introspection for the FastAPI service.
- a React client with a Flask proxy. The client aligns series for charts, builds
  request payloads, picks yearly entries, merges indicator catalogs and keeps presets.

This project models that logic in Dafny and proves properties of it. It uses one module
per source file or client component:

- Backend analytics: `Lorenz`, `Correlation`, `CorrelationService`, `Inequality`,
  `Forecasting`, `ForecastApi`, `WorldBank`, `Series`, `Store`, `Observations`,
  `AnalyticsApi`, `Params`.
- Backend operations: `Ingestion`, `IngestScript`, `RateLimit`, `Deps`, `Authz`,
  `ChartExplainer`.
- Django: `Accounts`, `Agreements`, `Presets`, `RolePermission`, `SimpleCors`.
- Client: `FlaskApp`, `WorldBankClient`, `ComparisonDashboard`, `ChartDisplay`,
  `ForecastPanel`, `GiniTrendPanel`, `ChartInsightAgent`, `SavedPresetsPanel`,
  `HomePage`, `AnalysisContext`, `ClientData`.
- Shared building blocks:
  - `Wrappers`: `Option` and `Result`.
  - `OrderedMap`: Python dicts and JavaScript maps as entry lists in which the last
    entry for a key wins.
  - `StableSort`: Python's stable `sorted`.
  - `Text`: Python's `strip` and JavaScript's `trim` over ASCII whitespace, ASCII case, and split.
  - `Numeric`: round half to even at four decimals, sums and square-root laws.
  - `PyConvert`: Python's `int()` of text (sign, digits and PEP 515 underscore grouping), of floats and of JSON values.
  - `Json`, `Http`, `Lists`.

The model has no I/O. Whatever the code gets from outside is a parameter of the
functions that use it:

- the database, given as a sequence of rows;
- the World Bank API, Django, the Flask proxy and the chart explainer endpoint, each a
  function from request to response;
- the clock, as explicit times `now` and `doneAt`;
- numpy's `polyfit`, `percentile` and `std`, and `sqrt`, gathered in one `Numerics`
  record with only the laws the proofs need;
- the interface translations;
- the language-model providers;
- Django's e-mail validator, and the SQLAlchemy session's autoflush setting.

Both Python's `round(x, 4)` and the trapezoid area are modelled on exact reals.

## Model

| member | source | states |
|---|---|---|
| StableSort.Sort | backend/fastapi_service/app/services/world_bank.py:30 | `sorted(..., key=...)`: a permutation of the input, ordered by key, in which elements of equal key keep their input order |
| StableSort.InsertSorted | backend/fastapi_service/app/services/world_bank.py:30 | inserting into a key-ordered sequence keeps it ordered |
| StableSort.InsertWithKey | backend/fastapi_service/app/services/world_bank.py:30 | inserting an element puts it after every earlier element of the same key |
| StableSort.IntLeIsTotal | backend/fastapi_service/app/services/world_bank.py:30 | the order on years is total |
| Series.SortByYear | backend/fastapi_service/app/services/world_bank.py:30 | rows sorted by year: same rows, years ascending, rows of one year in input order |
| Series.FilterWindow | backend/fastapi_service/app/api/v1/inequality.py:63-66 | only rows inside the optional inclusive window are kept |
| Series.FilterWindowCount | backend/fastapi_service/app/api/v1/inequality.py:63-66 | each row inside the window is kept as often as it occurs and each row outside is dropped |
| Series.FilterWindowKeepsOrder | backend/fastapi_service/app/api/v1/inequality.py:63-66 | filtering a year-ordered series keeps it year-ordered |
| Series.Valued | backend/fastapi_service/app/services/forecasting.py:44 | only rows holding a value are kept |
| Series.ValuedCount | backend/fastapi_service/app/services/forecasting.py:44 | each valued row is kept as often as it occurs and each null row is dropped |
| Series.LastValuedIsLatest | frontend/src/components/GiniTrendPanel.jsx:6-9 | the last valued row: absent exactly when no row has a value, otherwise a valued row after which no row has a value |
| Store.FindCountry | backend/fastapi_service/app/services/analytics.py:40 | the first country row with the code, found exactly when one exists |
| Store.FindIndicator | backend/fastapi_service/app/services/correlation.py:37-38 | the first indicator row with the code, found exactly when one exists |
| Store.RowsOf | backend/fastapi_service/app/api/v1/inequality.py:27-30 | only rows of the country and indicator |
| Store.RowsOfCount | backend/fastapi_service/app/api/v1/inequality.py:27-30 | each row of the pair is kept as often as it is stored and every other row is dropped |
| Store.SeriesOf | backend/fastapi_service/app/api/v1/inequality.py:27-36 | the pair's rows as points, ordered by year, the same rows as stored |
| Store.SeriesOfFromRows | backend/fastapi_service/app/api/v1/inequality.py:27-36 | every point of the series is the year and value of a stored row of the pair |
| Store.LatestAtOrBefore | backend/fastapi_service/app/services/analytics.py:55-64 | the observation with the largest year at most the given one, absent exactly when the pair has none |
| OrderedMap.Get | backend/fastapi_service/app/services/correlation.py:58-59 | a lookup succeeds exactly when the key is present and returns the value stored under it |
| OrderedMap.Put | backend/fastapi_service/app/services/correlation.py:55 | assigning to a present key keeps the key order; a new key is appended |
| OrderedMap.PutGet | backend/fastapi_service/app/services/correlation.py:55 | after an assignment the key reads the new value and every other key reads what it did before |
| OrderedMap.PutKeepsUnique | backend/fastapi_service/app/services/correlation.py:55 | assignments never duplicate a key |
| OrderedMap.LastFor | frontend/src/components/ComparisonDashboard.jsx:6 | the value of the last pair with the key, absent exactly when no pair has it |
| OrderedMap.FromPairsLastWins | frontend/src/components/ComparisonDashboard.jsx:6 | a map built from pairs reads, for every key, the value of the last pair with that key |
| OrderedMap.LastForUnique | frontend/src/components/ComparisonDashboard.jsx:6 | with distinct keys, a key reads its own pair's value |
| Json.Field | backend/app.py:24-25 | `entry.get(key)` never yields JSON null: null reads as absent |
| Json.FieldOfUnique | backend/app.py:24-25 | with distinct keys, a field reads the value stored under it, null reading as absent |
| ClientData.IndicatorLabel | frontend/src/components/ComparisonDashboard.jsx:35-36 | the caption of the first catalog entry with the code, falling back to the code when there is none or the caption is empty |
| Text.StripIn | backend/fastapi_service/app/api/v1/inequality.py:89 | `str.strip()` (Python whitespace) or `trim()` (JavaScript whitespace): the contiguous middle of the input left after leading and trailing whitespace, empty exactly when the input is all whitespace, and otherwise starting and ending with a non-space |
| Text.StrippedIsTrimmed | frontend/src/components/ChartInsightAgent.jsx:42 | a string Python has stripped has nothing left for JavaScript's `trim()` |
| Text.SeparatorTrimmedOnlyByPython | backend/fastapi_service/app/services/chart_explainer.py:308 | Python strips a leading U+001C that JavaScript's `trim()` keeps |
| Text.StripIdempotent | backend/fastapi_service/app/api/v1/inequality.py:89 | trimming a trimmed string changes nothing |
| Text.Upper | backend/fastapi_service/app/services/analytics.py:40 | `str.upper()` on ASCII: same length, each lower-case letter raised and every other character kept |
| Text.Lower | backend/app.py:82-83 | `str.lower()` on ASCII: same length, each upper-case letter lowered and every other character kept |
| Text.UpperIdempotent | backend/fastapi_service/app/services/analytics.py:40 | upper-casing twice is upper-casing once |
| Text.LowerIdempotent | backend/app.py:82-83 | lower-casing twice is lower-casing once |
| Text.LowerStripIdempotent | backend/fastapi_service/app/services/chart_explainer.py:72 | trimming and lower-casing an already trimmed, lower-cased string changes nothing |
| Text.Split | backend/fastapi_service/app/api/v1/inequality.py:89 | `str.split(sep)`: at least one piece, none containing the separator |
| Text.SplitJoin | backend/fastapi_service/app/api/v1/inequality.py:89 | joining the pieces with the separator gives the input back |
| Text.JoinSplit | backend/fastapi_service/app/api/v1/inequality.py:89 | splitting a join of separator-free pieces gives the pieces back |
| Text.SplitConcat | backend/fastapi_service/app/api/v1/inequality.py:89 | splitting two strings joined by the separator splits each of them |
| Text.LastIndexOf | backend/django_service/core/serializers.py:26-30 | the position of the last occurrence of a character: it holds the character and none follows |
| Text.LastIndexOfUnique | backend/django_service/core/serializers.py:26-30 | an occurrence with none after it is the last one |
| PyConvert.ParseInt | backend/fastapi_service/app/services/world_bank.py:16 | `int(text)` succeeds only on text that is not blank after stripping |
| PyConvert.ParseIntExactly | backend/fastapi_service/app/services/world_bank.py:16 | `int(text)` succeeds exactly when the stripped text, less one leading sign, splits at its underscores into non-empty runs of digits (PEP 515 grouping), and the value is that of the runs laid end to end, negated after a minus |
| PyConvert.WellGroupedIffDigitGroups | backend/fastapi_service/app/services/world_bank.py:16 | digits with single underscores between them are exactly the texts that split at underscores into non-empty digit runs, and removing the underscores concatenates the runs |
| PyConvert.ParseGrouped | backend/fastapi_service/app/services/world_bank.py:16 | any sign followed by non-empty digit runs joined by single underscores is accepted, with the value of the digits run together |
| PyConvert.ParseLiteralIsGrouped | backend/fastapi_service/app/services/world_bank.py:16 | every accepted sign-and-digits text is digit runs joined by single underscores, valued as their concatenated digits |
| PyConvert.ParseUnderscored | backend/fastapi_service/app/services/world_bank.py:16 | two digit runs joined by one underscore parse as the digits side by side |
| PyConvert.UnderscoreExample | backend/fastapi_service/app/services/world_bank.py:16 | `int("1_990")` is 1990 |
| PyConvert.UnderscoreYearExample | backend/fastapi_service/app/services/world_bank.py:16 | `int("2_020")` is 2020 |
| PyConvert.UnderscoreTenExample | backend/fastapi_service/app/services/world_bank.py:16 | `int("1_0")` is 10 |
| PyConvert.MisplacedUnderscoresRefused | backend/fastapi_service/app/services/world_bank.py:16 | a doubled, leading or trailing underscore is refused |
| PyConvert.ParseShowInt | backend/fastapi_service/app/services/world_bank.py:16 | the decimal notation of any integer parses back to that integer |
| PyConvert.Trunc | backend/fastapi_service/app/services/world_bank.py:16 | `int(float)` truncates toward zero |
| PyConvert.PyInt | backend/fastapi_service/app/services/world_bank.py:16 | `int(v)` of a JSON integer is that integer and fails for null, lists and objects |
| PyConvert.PyFloat | backend/fastapi_service/app/services/world_bank.py:16 | `float(v)` of a JSON number is that number, of an integer its real value, and fails for null, lists and objects |
| Numeric.Round4 | backend/fastapi_service/app/services/analytics.py:24-25 | Python's `round(x, 4)` moves a value by at most half a unit of the fourth decimal |
| Numeric.Round4Monotone | backend/fastapi_service/app/services/analytics.py:24-25 | rounding to four decimals never reverses the order of two values |
| Numeric.Round4Idempotent | backend/fastapi_service/app/services/analytics.py:24-25 | a rounded value is on the four-decimal grid and rounding it again changes nothing |
| Numeric.Round4Advances | backend/fastapi_service/app/services/analytics.py:24 | adding at least 0.0001 to a four-decimal value and rounding gives a strictly larger value |
| Numeric.Round4IsRound4 | backend/fastapi_service/app/services/analytics.py:24-25 | the exact rounding obeys the four laws the Lorenz proofs assume of any rounding function |
| Lorenz.LorenzCodesDistinct | backend/fastapi_service/app/services/analytics.py:10-16 | the five quintile indicator codes are pairwise distinct |
| Lorenz.BuildLorenzPoints | backend/fastapi_service/app/services/analytics.py:19-27 | the curve starts at (0,0), has one more point than the zipped (share, population) pairs, and each point is the previous one advanced by (population, share/100) with both coordinates rounded |
| Lorenz.LorenzStep | backend/fastapi_service/app/services/analytics.py:23-26 | the step from point i to point i+1 for any index inside the zipped pairs |
| Lorenz.LorenzPointRounded | backend/fastapi_service/app/services/analytics.py:24-26 | every point of the curve is already a four-decimal value |
| Lorenz.LorenzYStep | backend/fastapi_service/app/services/analytics.py:25 | a non-negative share never lowers the cumulative income |
| Lorenz.LorenzYMonotone | backend/fastapi_service/app/services/analytics.py:19-27 | with non-negative shares the y coordinates never decrease along the whole curve |
| Lorenz.LorenzXStep | backend/fastapi_service/app/services/analytics.py:24 | a population of at least 0.0001 strictly advances the cumulative population |
| Lorenz.LorenzXStrictlyIncreasing | backend/fastapi_service/app/services/analytics.py:19-27 | with every population at least 0.0001 the x coordinates strictly increase along the whole curve |
| Lorenz.TinyPopulationDoesNotAdvance | backend/fastapi_service/app/services/analytics.py:24 | a positive population of 0.00005 is absorbed by the rounding, so a positive population alone does not make x increase |
| Lorenz.ComputeGini | backend/fastapi_service/app/services/analytics.py:30-36 | the index lies in [0, 1]; fewer than two points give 1; when 1 − 2·area already lies in [0, 1] it is returned unclamped |
| Lorenz.GiniOfLorenzCurveIsUnclamped | backend/fastapi_service/app/services/analytics.py:30-36 | for a curve from (0,0) with non-decreasing x ending at most at 1 and 0 ≤ y ≤ x, the clamp never applies |
| Lorenz.LorenzAreaAtMostHalf | backend/fastapi_service/app/services/analytics.py:31-35 | the trapezoid area under such a curve lies between 0 and 1/2, the area under the equality line |
| Lorenz.AreaBounds | backend/fastapi_service/app/services/analytics.py:31-35 | twice the trapezoid area is at most the difference of the squared end abscissas and never negative |
| Lorenz.TrapezoidBelowDiagonal | backend/fastapi_service/app/services/analytics.py:35 | one trapezoid under points with 0 ≤ y ≤ x lies under the diagonal over the same interval |
| Lorenz.GiniOfEqualityLine | backend/fastapi_service/app/services/analytics.py:30-36 | the equality line (0,0)–(1,1) has index 0 |
| Lorenz.QuintileXs | backend/fastapi_service/app/services/analytics.py:10-27 | with the five 0.2 population shares the x coordinates are exactly 0, 0.2, 0.4, 0.6, 0.8 and 1.0 |
| Lorenz.ExamplePoints | backend/fastapi_service/app/services/analytics.py:19-27 | shares 5, 10, 15, 20, 50 give the curve (0,0), (0.2,0.05), (0.4,0.15), (0.6,0.3), (0.8,0.5), (1,1) |
| Lorenz.ExampleArea | backend/fastapi_service/app/services/analytics.py:31-35 | that curve has trapezoid area 0.3 |
| Lorenz.ExampleCurveAndGini | backend/fastapi_service/app/services/analytics.py:19-36 | those shares give that curve and a Gini index of 0.4 |
| Lorenz.QuintileValueIsLatest | backend/fastapi_service/app/services/analytics.py:55-68 | a quintile value that is found comes from the most recent observation of the country and indicator with year at most the requested one |
| Lorenz.NoEarlierFallback | backend/fastapi_service/app/services/analytics.py:55-67 | when that most recent observation is null, the quintile is missing even if an earlier year has a value |
| Lorenz.CollectQuintiles | backend/fastapi_service/app/services/analytics.py:47-69 | shares and populations have equal length and, with the missing codes, account for every quintile |
| Lorenz.CollectMissingIff | backend/fastapi_service/app/services/analytics.py:50-67 | a code is missing exactly when it is one of the quintiles and has no usable value |
| Lorenz.CollectPopulations | backend/fastapi_service/app/services/analytics.py:68-69 | every population recorded is the quintile's fixed population share |
| Lorenz.CollectComplete | backend/fastapi_service/app/services/analytics.py:50-69 | with nothing missing, share k is the value of quintile k, in list order |
| Lorenz.CollectLorenzFacts | backend/fastapi_service/app/services/analytics.py:43-69 | for the five Lorenz quintiles: populations are 0.2, missing holds exactly the codes without a value, and a complete collection lists the values in quintile order |
| Lorenz.LorenzSegments | backend/fastapi_service/app/services/analytics.py:39-76 | nothing for an unknown (upper-cased) country; otherwise the country, the year, equal-length shares and populations that together with `missing` cover the five quintiles |
| Lorenz.FindLorenzRow | backend/fastapi_service/app/services/analytics.py:83-88 | finds a cached result for the country and year exactly when one is stored |
| Lorenz.MissingHasWitness | backend/fastapi_service/app/services/analytics.py:97-98 | a non-empty missing list names a quintile without a value |
| Lorenz.FindLorenzRowAppend | backend/fastapi_service/app/services/analytics.py:83-88 | adding a result row leaves an earlier cached result found and makes the new row found for its own key |
| Lorenz.GetOrCreateLorenzResult | backend/fastapi_service/app/services/analytics.py:79-110 | unknown country: nothing, store unchanged; cached row: returned as stored; otherwise a result exactly when all five quintiles have values, with the rounded curve and its Gini index, appended to the store |
| Lorenz.GetOrCreateIsIdempotent | backend/fastapi_service/app/services/analytics.py:79-110 | asking again after a result was created returns the same result and adds nothing |
| Correlation.SwapAll | backend/fastapi_service/app/services/correlation.py:16 | exchanges the two components of every pair, keeping the order |
| Correlation.ComputeCorrelation | backend/fastapi_service/app/services/correlation.py:8-25 | fewer than three pairs give no coefficient |
| Correlation.TotalsAppend | backend/fastapi_service/app/services/correlation.py:16-21 | the accumulated sums over two runs of pairs are the sums of each run |
| Correlation.TotalsPermutation | backend/fastapi_service/app/services/correlation.py:11-21 | the means and the three deviation sums do not depend on the order of the pairs |
| Correlation.TotalsSwap | backend/fastapi_service/app/services/correlation.py:11-21 | swapping every pair swaps the two series' sums and squared deviations and keeps the cross sum |
| Correlation.TermSwap | backend/fastapi_service/app/services/correlation.py:17-21 | one pair's contribution mirrors when the pair is swapped |
| Correlation.SquaresNonNegative | backend/fastapi_service/app/services/correlation.py:20-21 | both sums of squared deviations are never negative |
| Correlation.CorrelationSymmetric | backend/fastapi_service/app/services/correlation.py:11-25 | swapping the two components of every pair leaves the result unchanged |
| Correlation.CorrelationPermutationInvariant | backend/fastapi_service/app/services/correlation.py:11-25 | any reordering of the pairs leaves the result unchanged |
| Correlation.CorrelationNoneIff | backend/fastapi_service/app/services/correlation.py:8-25 | there is no coefficient exactly when there are fewer than three pairs or one side's squared deviations sum to zero |
| Correlation.CoefficientMirror | backend/fastapi_service/app/services/correlation.py:22-25 | the final division is the same for mirrored sums |
| Correlation.ConstantSeriesGivesNone | backend/fastapi_service/app/services/correlation.py:20-24 | a constant first series gives no coefficient, however many pairs there are |
| Correlation.ConstantTotals | backend/fastapi_service/app/services/correlation.py:11-20 | a constant series sums to count times the constant and has no deviation from its own mean |
| Correlation.QuadSumExpands | backend/fastapi_service/app/services/correlation.py:19-21 | the sum of squared residuals (dA − t·dB)² equals the quadratic built from the three deviation sums, hence is never negative |
| Correlation.CauchySchwarz | backend/fastapi_service/app/services/correlation.py:19-21 | the squared cross sum never exceeds the product of the two squared-deviation sums |
| Correlation.CorrelationBounded | backend/fastapi_service/app/services/correlation.py:8-25 | a coefficient, when there is one, lies in [−1, 1] |
| Correlation.CoefficientBounded | backend/fastapi_service/app/services/correlation.py:22-25 | dividing a cross sum within the spread by the square root of the spread gives a value in [−1, 1] |
| Correlation.PerfectLineExample | backend/fastapi_service/app/services/correlation.py:8-25 | the pairs (1,2), (2,4), (3,6) have correlation exactly 1 |
| Correlation.PerfectLineDeviations | backend/fastapi_service/app/services/correlation.py:11-21 | for those pairs the means are 2 and 4 and the deviation sums are 4, 2 and 8 |
| CorrelationService.SelectRows | backend/fastapi_service/app/services/correlation.py:41-49 | every row kept belongs to the country, to one of the two indicators and to the optional year window |
| CorrelationService.SelectRowsMembers | backend/fastapi_service/app/services/correlation.py:41-49 | a row is kept exactly when it is stored and passes those filters |
| CorrelationService.WindowRows | backend/fastapi_service/app/services/correlation.py:41-50 | the query result is ordered by year and holds exactly the stored rows that pass the filters |
| CorrelationService.YearValuesHasYear | backend/fastapi_service/app/services/correlation.py:51-55 | the per-indicator dictionary has a year exactly when some row of that indicator and year carries a value |
| CorrelationService.ByIndicatorHasYear | backend/fastapi_service/app/services/correlation.py:51-55 | null rows are skipped: a year is looked up successfully exactly when a valued row has it |
| CorrelationService.Overlap | backend/fastapi_service/app/services/correlation.py:56-59 | one pair per overlapping year |
| CorrelationService.OverlapPairsAreAligned | backend/fastapi_service/app/services/correlation.py:56-59 | pair i holds indicator A's and indicator B's value for the same year |
| CorrelationService.OverlapYearsMembers | backend/fastapi_service/app/services/correlation.py:57-58 | a year is in the overlap exactly when both dictionaries have it |
| CorrelationService.OverlapYearsDistinct | backend/fastapi_service/app/services/correlation.py:56-59 | no year appears twice in the overlap |
| CorrelationService.CorrelationForCountry | backend/fastapi_service/app/services/correlation.py:28-67 | nothing exactly when the upper-cased country or either indicator is unknown; otherwise the codes, `points` equal to the number of overlapping years, and the coefficient of the overlap pairs |
| CorrelationService.CommonYearsExact | backend/fastapi_service/app/services/correlation.py:41-59 | the overlap is exactly the years in the window for which both indicators have a non-null value for the country |
| CorrelationService.CommonYearsDistinct | backend/fastapi_service/app/services/correlation.py:51-59 | each overlapping year is counted once |
| ComparisonDashboard.PairOf | frontend/src/components/ComparisonDashboard.jsx:8-10 | a row of B yields one pair exactly when A has its year and both values are numbers, and that pair is (A's value, B's value) |
| ComparisonDashboard.JsPairsUseLastRowOfA | frontend/src/components/ComparisonDashboard.jsx:6-10 | pairing through the `Map` of A equals pairing each row of B, in B's order, with the last row of A of the same year |
| ComparisonDashboard.JsPairsFromRows | frontend/src/components/ComparisonDashboard.jsx:6-10 | every pair comes from a valued row of B and the value of the last row of A with that year |
| ComparisonDashboard.JsPairsCountRows | frontend/src/components/ComparisonDashboard.jsx:6-10 | when every row of B is valued and A's last row of that year is valued, every row of B yields a pair |
| ComparisonDashboard.ComputeCorrelationJs | frontend/src/components/ComparisonDashboard.jsx:5-14 | fewer than three usable pairs, and so fewer than three rows in B, give null |
| ComparisonDashboard.ComputeCorrelationJsSound | frontend/src/components/ComparisonDashboard.jsx:5-32 | null exactly when fewer than three pairs remain or a side has zero spread (never a division by zero), and otherwise a value in [−1, 1] |
| ComparisonDashboard.CorrelationTable | frontend/src/components/ComparisonDashboard.jsx:38-60 | empty unless two indicators are paired and both datasets exist; otherwise one row per primary country, in order, with a coefficient only when the secondary dataset has that country |
| ComparisonDashboard.CorrelationTableRow | frontend/src/components/ComparisonDashboard.jsx:48-58 | a row's coefficient is that of the primary series against the first secondary series of the same country, or null when there is none |
| Inequality.LoadSeries | backend/fastapi_service/app/api/v1/inequality.py:20-44 | when the store has the upper-cased country, the indicator and at least one row for the pair, the stored series ordered by year with source `cache_db`; otherwise the live series of the upper-cased country with source `world_bank_live` and the fetch time, or the live error |
| Inequality.UsesStoreIff | backend/fastapi_service/app/api/v1/inequality.py:24-34 | the stored series is used exactly when both rows exist and some observation belongs to the pair |
| Inequality.StoredSeriesComesFromRows | backend/fastapi_service/app/api/v1/inequality.py:27-36 | every point of a stored series is the year and value of an observation of that country and indicator |
| Inequality.TrendPoints | backend/fastapi_service/app/api/v1/inequality.py:68-77 | the loop that carries the last numeric value computes, for every point, the change against the latest earlier valued point |
| Inequality.YoyAbsentCases | backend/fastapi_service/app/api/v1/inequality.py:71-76 | a point without a value, or with no valued point before it, has no change |
| Inequality.YoyAgainstLatestEarlierValue | backend/fastapi_service/app/api/v1/inequality.py:71-76 | otherwise the change is the value minus that of the latest earlier valued point, skipping nulls in between |
| Inequality.GiniTrend | backend/fastapi_service/app/api/v1/inequality.py:47-79 | 400 exactly for a reversed window, 502 exactly when loading fails, otherwise the upper-cased country and the loaded rows inside the inclusive window, in order, with their years, values and year-over-year changes |
| Inequality.StripAll | backend/fastapi_service/app/api/v1/inequality.py:89 | each comma-separated piece trimmed, in order |
| Inequality.NonEmpty | backend/fastapi_service/app/api/v1/inequality.py:89 | only non-blank pieces are kept |
| Inequality.NonEmptyMembers | backend/fastapi_service/app/api/v1/inequality.py:89 | a piece is kept exactly when it is non-empty |
| Inequality.NonEmptyEmptyIff | backend/fastapi_service/app/api/v1/inequality.py:89-91 | nothing is kept exactly when every piece is empty |
| Inequality.ParseCodes | backend/fastapi_service/app/api/v1/inequality.py:89 | every parsed code is non-empty and already trimmed |
| Inequality.StrippedKeptStripped | backend/fastapi_service/app/api/v1/inequality.py:89 | the kept pieces are trimmed |
| Inequality.NoItemsIff | backend/fastapi_service/app/api/v1/inequality.py:89-91 | the list is empty exactly when every piece is blank after trimming |
| Inequality.ParseCodesEmptyIff | backend/fastapi_service/app/api/v1/inequality.py:89-91 | no codes exactly when every comma-separated piece of the input is blank |
| Inequality.ValueAtYear | backend/fastapi_service/app/api/v1/inequality.py:102 | the value of the first row of the requested year, or nothing when no row has that year |
| Inequality.RankRow | backend/fastapi_service/app/api/v1/inequality.py:96-103 | the upper-cased code and the year, with no value when loading fails and otherwise the value of the requested year |
| Inequality.RankRows | backend/fastapi_service/app/api/v1/inequality.py:95-103 | one row per requested code, in request order |
| Inequality.RankLeIsTotal | backend/fastapi_service/app/api/v1/inequality.py:106 | the tuple order on (value is missing, −value) is a total preorder |
| Inequality.KeyOrderIsRankedOrder | backend/fastapi_service/app/api/v1/inequality.py:105-106 | rows sorted by that key put known values first, in descending order, and missing ones last |
| Inequality.GiniRanking | backend/fastapi_service/app/api/v1/inequality.py:82-107 | 400 exactly when no codes or more than 25 remain; otherwise one row per code, a permutation of the unsorted rows, ranked, with rows of equal key kept in request order |
| Inequality.RankValueFromStore | backend/fastapi_service/app/api/v1/inequality.py:24-102 | a value ranked from the store is the value of a stored observation of that country and year |
| WorldBank.BuildUrlSegments | backend/fastapi_service/app/services/world_bank.py:6-7 | splitting the URL at '/' gives the base's segments followed by exactly the country, "indicator" and the indicator, so the codes are recoverable from the URL |
| WorldBank.NormalizeEntry | backend/fastapi_service/app/services/world_bank.py:10-18 | an entry is kept exactly when its value and date are present and convert with `float()` and `int()` (digit grouping with underscores included), and then it is the converted year and value |
| WorldBank.NormalizeDated | backend/fastapi_service/app/services/world_bank.py:10-18 | a row with a date `int()` accepts and a numeric value normalises to that year and value |
| WorldBank.GroupedYear2020 | backend/fastapi_service/app/services/world_bank.py:16 | a date "2_020" converts to the year 2020 |
| WorldBank.GroupedDate | backend/fastapi_service/app/services/world_bank.py:10-18 | a row dated "2_020" with value 3.5 normalises to the point (2020, 3.5) |
| WorldBank.NormalizeEntryExamples | backend/fastapi_service/app/services/world_bank.py:10-18 | date "2020" with value 3.5 gives (2020, 3.5); a null value gives nothing |
| WorldBank.RowsOf | backend/fastapi_service/app/services/world_bank.py:29 | iterating `payload[1]` succeeds for a list, giving its items, and for an empty string or object, giving nothing |
| WorldBank.NormalizeAll | backend/fastapi_service/app/services/world_bank.py:29 | succeeds exactly when every row is an object, and keeps only entries that normalise, all with values |
| WorldBank.NormalizeAllFromRows | backend/fastapi_service/app/services/world_bank.py:29 | every kept point is the normalisation of some input row |
| WorldBank.NormalizeAllKeepsRows | backend/fastapi_service/app/services/world_bank.py:29 | every row that normalises is kept |
| WorldBank.ParsePayload | backend/fastapi_service/app/services/world_bank.py:27-30 | a payload that is not a list of at least two items raises the format error; otherwise the normalised entries of the second item, reordered by year, all valued |
| WorldBank.NullRowsIsAnError | backend/fastapi_service/app/services/world_bank.py:29 | a payload whose second item is null fails (iterating None raises) |
| WorldBank.FetchWith | backend/fastapi_service/app/services/world_bank.py:23-30 | a transport error, a refused status or an undecodable body fail as a request error; otherwise the payload is parsed |
| WorldBank.FastApiFetch | backend/fastapi_service/app/services/world_bank.py:21-30 | a series that is returned is in year order and every row has a value |
| FlaskApp.CacheKeyInjective | backend/app.py:56 | codes without ':' never share a cache key |
| FlaskApp.CacheKeyCollision | backend/app.py:56 | codes containing ':' can share one: ("a:b", "c") and ("a", "b:c") |
| FlaskApp.CacheGet | backend/app.py:38-46 | a hit exactly when the key is stored and has not expired, returning the stored series; a miss removes the key |
| FlaskApp.CacheSet | backend/app.py:48-49 | stores the series with expiry now + TTL and leaves every other key as it was |
| FlaskApp.SetThenGet | backend/app.py:38-49 | a stored series is read back until its expiry and not after |
| FlaskApp.SetKeepsOtherKeys | backend/app.py:38-49 | storing under one key does not change what another key reads |
| FlaskApp.FetchIndicator | backend/app.py:55-72 | a non-empty unexpired cached series is returned without touching the cache; otherwise the live result, and a live success is cached |
| FlaskApp.FetchIndicatorWellFormed | backend/app.py:55-72 | the cache only ever holds year-ordered series without missing values, and every returned series is one |
| FlaskApp.CacheHitSkipsNetwork | backend/app.py:57-59 | on a cache hit the network is not consulted and the cache is unchanged |
| FlaskApp.BoundText | backend/app.py:98-100 | a bound applies exactly when it is given and not empty |
| FlaskApp.WithinRange | backend/app.py:97-102 | with parsable bounds, whether the year lies in the inclusive window; an unparsable start bound raises |
| FlaskApp.FilterRangeFailsIff | backend/app.py:97-104 | the filter raises exactly when checking some row raises |
| FlaskApp.FilterRangeLast | backend/app.py:97-104 | the filter raises exactly when the filter of all rows but the last raises or the last row's check does |
| FlaskApp.GroupedStartBound | backend/app.py:97-102 | `start=1_990` is the start year 1990: 1989 is out, 1990 is in, and the filter is the window from 1990 |
| FlaskApp.FilterRangeIsWindow | backend/app.py:97-104 | with parsable bounds the filter keeps exactly the rows inside the inclusive window, in order |
| FlaskApp.BadEndUnreachedBeforeStart | backend/app.py:98-100 | an unparsable end bound is never read when every row is before the start, so the answer is empty instead of an error |
| FlaskApp.FilterRangeKeepsOrder | backend/app.py:97-104 | filtering keeps the year order and only rows of the series |
| FlaskApp.GetIndicatorData | backend/app.py:80-105 | lower-cased codes, 400 when either is missing, 502 with details for a failed request, 500 for the format error or an uncaught exception, otherwise 200 with the rows in range |
| FlaskApp.GetIndicatorDataWellFormed | backend/app.py:80-105 | the cache stays well formed and a 200 answer lists year-ordered, valued rows inside the requested window |
| FlaskApp.KeptAreValued | backend/app.py:104 | rows kept from a series without missing values have values |
| Observations.PairWindow | backend/fastapi_service/app/api/v1/observations.py:34-42 | only rows of the pair inside the optional window |
| Observations.PairWindowCount | backend/fastapi_service/app/api/v1/observations.py:34-42 | each row of the pair inside the window is kept as often as it is stored, every other row is dropped |
| Observations.StoredWindow | backend/fastapi_service/app/api/v1/observations.py:34-43 | the query result is ordered by year and holds exactly the stored rows of the pair inside the window |
| Observations.StoredOut | backend/fastapi_service/app/api/v1/observations.py:47-55 | one output row per stored row, carrying the stored country and indicator codes |
| Observations.LiveOut | backend/fastapi_service/app/api/v1/observations.py:70-78 | one output row per live row, carrying the upper-cased country code |
| Observations.ListObservations | backend/fastapi_service/app/api/v1/observations.py:15-78 | 400 for a reversed window; stored rows in the window, ordered by year, as `cache_db` when there are any; otherwise 502 on a live failure or the live series filtered to the window as `world_bank_live` |
| Observations.ListObservationsRowsInWindow | backend/fastapi_service/app/api/v1/observations.py:27-78 | every returned row lies in the window and carries the upper-cased country code |
| Observations.ListObservationsCacheExact | backend/fastapi_service/app/api/v1/observations.py:33-55 | a `cache_db` answer lists exactly the stored rows of the pair in the window, in year order |
| Observations.CacheHitIgnoresLive | backend/fastapi_service/app/api/v1/observations.py:45-55 | one stored row in the window suffices to answer from the store, whatever the live source would say |
| Params.MatchPattern | backend/fastapi_service/app/api/v1/params.py:17-28 | the anchored pattern `^[allowed]{min,max}$` accepts exactly the strings of allowed characters with a length in range; the country and indicator checks go through it |
| Params.CheckCountry | backend/fastapi_service/app/api/v1/params.py:11-20 | a country code passes exactly when it has 2 to 8 characters from `[A-Za-z0-9-]`, and is then unchanged; otherwise 422 |
| Params.CheckIndicator | backend/fastapi_service/app/api/v1/params.py:22-31 | an indicator code passes exactly when it has 3 to 64 characters from `[A-Za-z0-9_.-]`; otherwise 422 |
| Params.CheckYear | backend/fastapi_service/app/api/v1/params.py:8-34 | a year passes exactly when absent or within [1990, current UTC year]; otherwise 422 |
| Params.CheckSeriesQuery | backend/fastapi_service/app/api/v1/params.py:11-34 | a query passes exactly when each of its parameters passes |
| Params.StartYear1980Refused | backend/fastapi_service/tests/test_api_endpoints.py:221-231 | start year 1980 is refused with 422 |
| Params.UpperKeepsCountryValid | backend/fastapi_service/app/api/v1/params.py:11-20 | upper-casing a valid country code keeps it valid |
| Params.CountryAlphabetWithinIndicator | backend/fastapi_service/app/api/v1/params.py:11-31 | a valid country code of three or more characters is also a valid indicator code |
| Params.ValidCodesAreStripped | backend/fastapi_service/app/api/v1/params.py:22-31 | a valid code has no surrounding whitespace |
| AnalyticsApi.LorenzCurve | backend/fastapi_service/app/api/v1/analytics.py:14-32 | a built or cached curve with an empty missing list; else 404 for an unknown country; else no points and the quintile codes that lack a value, the store unchanged |
| AnalyticsApi.LorenzCurveMissingIsExplained | backend/fastapi_service/app/api/v1/analytics.py:29-32 | a non-empty missing list names exactly the quintiles without a value, and then there are no points |
| AnalyticsApi.LorenzCurveNeverEmpty | backend/fastapi_service/app/api/v1/analytics.py:21-32 | for a known country without a cached curve, the answer has either points or missing codes |
| AnalyticsApi.GiniIndex | backend/fastapi_service/app/api/v1/analytics.py:35-45 | 404 when no Lorenz result is available, otherwise its country and index for the requested year |
| AnalyticsApi.GiniIndexInRange | backend/fastapi_service/app/api/v1/analytics.py:35-45 | every index answered lies in [0, 1], and the stored results keep lying there |
| AnalyticsApi.CorrelationEndpoint | backend/fastapi_service/app/api/v1/analytics.py:48-63 | 400 for a reversed window, 404 when the service finds nothing, otherwise the service's report |
| AnalyticsApi.SparseOverlapIsNotAnError | backend/fastapi_service/app/api/v1/analytics.py:60-63 | fewer than three overlapping years is a normal answer with no coefficient |
| Forecasting.Zip | backend/fastapi_service/app/services/forecasting.py:44 | `zip(years, values)` is as long as the shorter input and pairs equal positions |
| Forecasting.ToSamples | backend/fastapi_service/app/services/forecasting.py:44 | one `(int(year), float(value))` sample per valued row, in order |
| Forecasting.Paired | backend/fastapi_service/app/services/forecasting.py:43-46 | the valued zipped rows, as samples, reordered by year |
| Forecasting.PairedLength | backend/fastapi_service/app/services/forecasting.py:43-46 | one sample per valued row |
| Forecasting.PairedDropsNulls | backend/fastapi_service/app/services/forecasting.py:44 | a sample occurs exactly as often as the corresponding valued row; null rows contribute nothing |
| Forecasting.KeepRecent | backend/fastapi_service/app/services/forecasting.py:47-48 | a suffix of the input, of length the smaller of the input length and the limit |
| Forecasting.Clip | backend/fastapi_service/app/services/forecasting.py:58 | `np.clip`: every value lands in [lower, upper] and values already inside are unchanged |
| Forecasting.Winsorize | backend/fastapi_service/app/services/forecasting.py:53-58 | fewer than 8 values, or percentiles out of order, leave the values unchanged; otherwise every value lies between the 5th and the 95th percentile |
| Forecasting.Sanitize | backend/fastapi_service/app/services/forecasting.py:36-61 | equal-length years and values, no more than the limit, the most recent valued samples in ascending year order, empty for an input without values, values winsorised |
| Forecasting.RecentAscending | backend/fastapi_service/app/services/forecasting.py:43-48 | the kept samples are in ascending year order |
| Forecasting.SanitizeKeepsLatest | backend/fastapi_service/app/services/forecasting.py:47-48 | every dropped sample is no later than every kept one, and the kept ones are the last of the sorted samples |
| Forecasting.ToSamplesCount | backend/fastapi_service/app/services/forecasting.py:44 | converting rows to samples keeps their multiplicities |
| Forecasting.Residuals | backend/fastapi_service/app/services/forecasting.py:71 | one residual per training point: the value minus the line at its year |
| Forecasting.YearRange | backend/fastapi_service/app/services/forecasting.py:69 | `range(first, first + count)`: count consecutive years from first, none for a non-positive count |
| Forecasting.LinearForecast | backend/fastapi_service/app/services/forecasting.py:64-73 | exactly `horizon` consecutive years after the last training year, one prediction of the fitted line each, and std 0 with at most one residual |
| Forecasting.LinearForecastStdNonNegative | backend/fastapi_service/app/services/forecasting.py:72 | the residual spread is never negative |
| Forecasting.BacktestErrorsAll | backend/fastapi_service/app/services/forecasting.py:88-96 | when every backtest prefix has at least five points, there is one error per backtest index, in order |
| Forecasting.BacktestWindow | backend/fastapi_service/app/services/forecasting.py:86 | k = max(1, min(test_points, n − 5)): at least 1 and at least min(test_points, n − 5), at most n − 5 for n ≥ 6 and at most test_points, and always one of 1, test_points and n − 5 |
| Forecasting.AbsAll | backend/fastapi_service/app/services/forecasting.py:99 | the absolute value of every error |
| Forecasting.SquareAll | backend/fastapi_service/app/services/forecasting.py:101 | the square of every error |
| Forecasting.SquareAllNonNegative | backend/fastapi_service/app/services/forecasting.py:101 | every squared error is non-negative |
| Forecasting.BacktestLinear | backend/fastapi_service/app/services/forecasting.py:76-102 | no score exactly when there are fewer than 10 values; otherwise the score covers k points, between 1 and n − 5 |
| Forecasting.BacktestScoresNonNegative | backend/fastapi_service/app/services/forecasting.py:99-101 | MAE and RMSE are never negative |
| Forecasting.IntervalContainsValue | backend/fastapi_service/app/services/forecasting.py:139-148 | with a non-negative std, lower ≤ value ≤ upper and the interval is symmetric around the value |
| Forecasting.ForecastPoints | backend/fastapi_service/app/services/forecasting.py:138-148 | one stored point per forecast year, with bounds value ∓ 1.96·std |
| Store.NextId | backend/fastapi_service/app/services/forecasting.py:136-137 | the id the database assigns a new row: positive, above every stored id, and either 1 or one above a stored id |
| Forecasting.PointYears | backend/fastapi_service/app/services/forecasting.py:116 | the years of the rows, in order |
| Forecasting.PointValues | backend/fastapi_service/app/services/forecasting.py:115 | the values of the rows, in order |
| Forecasting.RunForecast | backend/fastapi_service/app/services/forecasting.py:105-151 | nothing, with the store unchanged, exactly when fewer than 8 rows are stored or fewer than 8 values survive sanitising; otherwise a run for the pair whose metrics are the fitted line's residual std and the five-point backtest, whose points are the line's forecast with its intervals, both appended to the store |
| Forecasting.RunForecastPointYears | backend/fastapi_service/app/services/forecasting.py:139-148 | one point per horizon year, belonging to the new run, for the years after the last training year in order |
| Forecasting.RunForecastFreshId | backend/fastapi_service/app/services/forecasting.py:136-138 | the new run's id is positive and above every stored run's id |
| Forecasting.RunForecastIntervals | backend/fastapi_service/app/services/forecasting.py:139-148 | every stored point has lower ≤ value ≤ upper, with half-width 1.96 times the run's residual std |
| ForecastApi.AllOut | backend/fastapi_service/app/api/v1/forecast.py:26 | every stored point becomes one response point with the same year, value and bounds, in order |
| ForecastApi.FallbackResponse | backend/fastapi_service/app/api/v1/forecast.py:39-65 | the live fallback answers for the upper-cased country with model `linear_trend`, one point per horizon year after the last training year, each with bounds value ∓ 1.96·std |
| ForecastApi.CreateForecast | backend/fastapi_service/app/api/v1/forecast.py:16-65 | a horizon outside 1..20 is refused with 422; a stored run answers from that run; otherwise a failed live fetch is a 502, fewer than 8 sanitised values a 400, and the live forecast is returned without touching the store |
| ForecastApi.CreateForecastShape | backend/fastapi_service/app/api/v1/forecast.py:44-52 | every successful forecast has exactly `horizon` points, each with both bounds and lower ≤ value ≤ upper |
| ForecastApi.FallbackIntervals | backend/fastapi_service/app/api/v1/forecast.py:44-52 | every point of the live fallback lies inside its own interval |
| ForecastApi.LatestRun | backend/fastapi_service/app/api/v1/forecast.py:79-85 | none exactly when the pair has no run; otherwise a run of the pair with the largest id |
| ForecastApi.PointsOfRun | backend/fastapi_service/app/api/v1/forecast.py:88-92 | only points of the requested run |
| ForecastApi.PointsOfRunMembers | backend/fastapi_service/app/api/v1/forecast.py:88-92 | a point is selected exactly when it is stored and belongs to the run |
| ForecastApi.RunPoints | backend/fastapi_service/app/api/v1/forecast.py:88-93 | the run's points, all of them and nothing else, ordered by year |
| ForecastApi.LatestForecast | backend/fastapi_service/app/api/v1/forecast.py:68-94 | 404 for an unknown country or indicator, 404 when the pair has no run, otherwise the latest run with its points by year |
| ForecastApi.CreateThenLatest | backend/fastapi_service/app/api/v1/forecast.py:68-94 | right after a stored forecast, the latest forecast of the pair is that run, with its horizon, model, metrics and as many points as were stored |
| ForecastApi.LatestOfAppended | backend/fastapi_service/app/api/v1/forecast.py:79-85 | a new run with an id above all stored ids becomes the latest run of its pair |
| ForecastApi.StoredPointsOfNewRun | backend/fastapi_service/app/api/v1/forecast.py:88-92 | when every stored point references an older run, the new run's points are exactly those just added |
| AnalysisContext.DefaultYears | frontend/src/context/AnalysisContext.jsx:18-19 | the default window starts at 1990 or twenty years back, whichever is later, and ends the year before the current one |
| AnalysisContext.DefaultWindowIsTwentyYears | frontend/src/context/AnalysisContext.jsx:18-19 | from 2010 on the default window spans exactly twenty years |
| AnalysisContext.ToEntry | frontend/src/context/AnalysisContext.jsx:29 | a fetched indicator keeps its code and is labelled by its name, or its code when the name is missing or empty |
| AnalysisContext.Keyed | frontend/src/context/AnalysisContext.jsx:31 | each option keyed by its own code, in order |
| AnalysisContext.Values | frontend/src/context/AnalysisContext.jsx:33 | the map's values in insertion order |
| AnalysisContext.MergeCatalog | frontend/src/context/AnalysisContext.jsx:30-34 | one option per distinct code of the previous and fetched lists |
| AnalysisContext.MergeTakesFetched | frontend/src/context/AnalysisContext.jsx:30-34 | after the merge a code maps to its last fetched entry when there is one, else to its previous entry |
| AnalysisContext.MergeKeepsPlaces | frontend/src/context/AnalysisContext.jsx:31-33 | the merge never drops a code and keeps the previous codes first, in their previous order |
| AnalysisContext.Initial | frontend/src/context/AnalysisContext.jsx:11-19 | nothing selected, a line chart and the default year window |
| AnalysisContext.LoadCatalog | frontend/src/context/AnalysisContext.jsx:21-40 | a failed load keeps both lists and reports the fixed error; a successful one replaces the countries and merges the indicators only when the arrays are non-empty, and leaves the selection alone |
| Json.NumberOf | frontend/src/context/AnalysisContext.jsx:62-63 | a field is read as a number exactly when the JSON value is an integer or a decimal, and then it is that value (the same test is SavedPresetsPanel.jsx:14-15) |
| AnalysisContext.ApplyPresetPayload | frontend/src/context/AnalysisContext.jsx:57-64 | a non-object payload changes nothing; otherwise each selection field is taken only when it has the expected JSON type, and the catalog is untouched |
| AnalysisContext.ApplyPresetPayloadIsIdempotent | frontend/src/context/AnalysisContext.jsx:57-64 | applying the same preset twice is the same as applying it once |
| HomePage.LoadCatalog | frontend/src/pages/Home.jsx:45-72 | the page's catalog load: the same replace-and-merge on success, the fixed error on failure, the selection and datasets untouched |
| HomePage.CorrelationPair | frontend/src/pages/Home.jsx:74-79 | the first two selected indicators, and nothing with fewer than two selected |
| HomePage.RunComparison | frontend/src/pages/Home.jsx:81-115 | an empty selection or a reversed window is refused with its message; otherwise the error is clear exactly when every request succeeds, and then there is one dataset per selected indicator holding one series per selected country; the datasets change only on success |
| HomePage.RefusedComparisonSendsNothing | frontend/src/pages/Home.jsx:82-89 | a refused comparison does not depend on the observations service |
| HomePage.ComparisonIsFindable | frontend/src/pages/Home.jsx:93-109 | after a successful comparison every selected indicator has a dataset and every selected country a series in it |
| HomePage.CurrentPayload | frontend/src/pages/Home.jsx:34-43 | the preset payload carries the five selection fields of the page |
| HomePage.OnLoad | frontend/src/pages/Home.jsx:146-152 | the selection arrays are taken, the chart type only when non-empty, each year only when present, and nothing else changes |
| HomePage.SavedSelectionRestores | frontend/src/pages/Home.jsx:34-43 | saving the selection and loading it back through the stored JSON restores it on any later page state |
| ChartInsightAgent.CaptionPairs | frontend/src/components/ChartInsightAgent.jsx:19-21 | each indicator code paired with its label, else its name, else the code |
| ChartInsightAgent.IndicatorCaption | frontend/src/components/ChartInsightAgent.jsx:48 | an unlisted code is its own caption, and a caption is empty only for the empty code |
| ChartInsightAgent.CaptionOfListed | frontend/src/components/ChartInsightAgent.jsx:19-21 | with distinct codes, a listed indicator's caption is its own label, name or code |
| ChartInsightAgent.ToChartDataset | frontend/src/components/ChartInsightAgent.jsx:46-56 | a dataset keeps its indicator and each country series, and gains the indicator's caption |
| ChartInsightAgent.BuildRequest | frontend/src/components/ChartInsightAgent.jsx:41-57 | the request carries the trimmed question, the language, the window and one entry per dataset, in order |
| ChartInsightAgent.SentRequestChecks | frontend/src/components/ChartInsightAgent.jsx:23 | a request the panel sends never fails the explainer's missing-dataset check, and fails its missing-question check exactly when Python's strip empties the trimmed question |
| ChartInsightAgent.SeparatorQuestionRefused | frontend/src/components/ChartInsightAgent.jsx:23 | a question of one U+001C passes `canAsk` and is then refused by the explainer as missing |
| ChartInsightAgent.Ask | frontend/src/components/ChartInsightAgent.jsx:31-72 | a refused question sets the no-data message; a failed request sets the failure message and keeps the answer; a reply replaces answer, provider, model and warning, missing ones as empty |
| ChartInsightAgent.RefusedQuestionSendsNothing | frontend/src/components/ChartInsightAgent.jsx:32-38 | a refused question does not depend on the endpoint |
| ChartInsightAgent.NextQuestion | frontend/src/components/ChartInsightAgent.jsx:25-29 | the question follows a language change only while it still is the old default |
| ChartInsightAgent.LanguageRoundTrip | frontend/src/components/ChartInsightAgent.jsx:25-29 | switching the language and back restores the question unless it was typed as the other default |
| GiniTrendPanel.ToDataset | frontend/src/components/GiniTrendPanel.jsx:30-31 | a trend answer becomes the country's dataset, with no points when the answer has none |
| GiniTrendPanel.LoadTrends | frontend/src/components/GiniTrendPanel.jsx:15-39 | a refused run says why, access first; otherwise the error is clear exactly when every country's request succeeds, and only then are the datasets replaced, one per country in order |
| GiniTrendPanel.RefusedRunSendsNothing | frontend/src/components/GiniTrendPanel.jsx:18-24 | a refused run does not depend on the trend service |
| GiniTrendPanel.SummaryRowOf | frontend/src/components/GiniTrendPanel.jsx:6-9 | the latest year and value are absent together, exactly when no point has a value, and otherwise come from the last valued point; the source defaults to "unknown" |
| GiniTrendPanel.SummaryRows | frontend/src/components/GiniTrendPanel.jsx:41-51 | one summary row per dataset, in order |
| GiniTrendPanel.SummaryAfterLoad | frontend/src/components/GiniTrendPanel.jsx:41-51 | after a successful load there is one row per selected country, whose latest value is absent exactly when that country's answer has no valued point |
| WorldBankClient.SegmentsMatchBackend | frontend/src/api/worldBankAPI.js:5-11 | the client asks for the same five quintiles, in the same order, as the backend's Lorenz service |
| WorldBankClient.PickEntryForYear | frontend/src/api/worldBankAPI.js:28-43 | nothing for a missing series; the first valued row of the target year when there is one; else the last valued row |
| WorldBankClient.PickEntryAbsentIff | frontend/src/api/worldBankAPI.js:28-43 | the pick is absent exactly when the series is missing or has no value, and a pick from another year has no valued row after it |
| WorldBankClient.ShareFor | frontend/src/api/worldBankAPI.js:53-57 | a segment keeps its code and caption and gains the picked share and year, both null without a pick |
| WorldBankClient.FetchError | frontend/src/api/worldBankAPI.js:20-24 | the proxy's own non-empty error message, else the fixed one |
| WorldBankClient.FetchSegments | frontend/src/api/worldBankAPI.js:45-62 | success exactly when every request succeeds, then one share per segment in order; otherwise the error of the first failing request |
| WorldBankClient.FetchLorenzSegments | frontend/src/api/worldBankAPI.js:45-62 | five shares in segment order, each with share and year present together |
| WorldBankClient.FetchedShareIff | frontend/src/api/worldBankAPI.js:52-57 | a share is present exactly when its series has a value, and it is for the target year whenever that year has one |
| ChartDisplay.NonEmpty | frontend/src/components/ChartDisplay.jsx:30 | only non-empty codes that occur in the input, never more of them |
| ChartDisplay.Take3 | frontend/src/components/ChartDisplay.jsx:30 | the first three entries, or all of them when there are fewer |
| ChartDisplay.DownloadName | frontend/src/components/ChartDisplay.jsx:27-32 | "chart" without datasets; otherwise prefixed by the view, with "data" when no country code is non-empty |
| ChartDisplay.DownloadNameLists | frontend/src/components/ChartDisplay.jsx:27-32 | with dash-free codes, splitting the name after its prefix at the dashes gives back the first three non-empty country codes |
| ChartDisplay.PaletteFor | frontend/src/components/ChartDisplay.jsx:68 | every dataset gets one of the five palette colours, dataset i below five gets colour i |
| ChartDisplay.PaletteRepeats | frontend/src/components/ChartDisplay.jsx:143 | the colours repeat every five datasets |
| ChartDisplay.LorenzChart | frontend/src/components/ChartDisplay.jsx:44-80 | the placeholder exactly when there is nothing to draw; otherwise the equality line first, then one coloured, captioned curve per input in order |
| ChartDisplay.InsertYear | frontend/src/components/ChartDisplay.jsx:137 | adding a year to an ascending duplicate-free list keeps it so, and adds exactly that year |
| ChartDisplay.AddYears | frontend/src/components/ChartDisplay.jsx:137 | adding a dataset's years keeps the list ascending and duplicate-free, and adds exactly those years |
| ChartDisplay.YearUnion | frontend/src/components/ChartDisplay.jsx:136-138 | strictly ascending, and holds exactly the years of some row of some dataset |
| ChartDisplay.ValueAtIsLastRow | frontend/src/components/ChartDisplay.jsx:155-158 | the year-keyed dictionary built by the reduce gives the value of the last row of that year |
| ChartDisplay.AlignValues | frontend/src/components/ChartDisplay.jsx:162 | one value per label, each the dictionary's value for that label's year |
| ChartDisplay.AlignedValueFromLastRow | frontend/src/components/ChartDisplay.jsx:155-162 | an aligned value is that of the last row of the label's year, and null when no row has it |
| ChartDisplay.LastRowValueAbsent | frontend/src/components/ChartDisplay.jsx:162 | a year no row has gives no value |
| ChartDisplay.SeriesChart | frontend/src/components/ChartDisplay.jsx:135-169 | the placeholder exactly when there is nothing to draw; a scatter shows each dataset's own rows reordered by year with no labels; otherwise every dataset is aligned to the ascending union of years |
| ChartDisplay.AlignedChartValue | frontend/src/components/ChartDisplay.jsx:155-162 | in the aligned chart, dataset i at label k shows the last row of that year |
| ForecastPanel.LastValidValue | frontend/src/components/ForecastPanel.jsx:50-53 | absent exactly when no row has a value; otherwise a valued row of the history with no valued row after it |
| ForecastPanel.RoundPercent | frontend/src/components/ForecastPanel.jsx:72 | the integer nearest to 100·actual/expected, halves rounded up |
| ForecastPanel.ComputeCoverage | frontend/src/components/ForecastPanel.jsx:55-74 | null exactly for an empty history; otherwise the year span of the history, the count of valued rows and their rounded share of the span |
| ForecastPanel.FullCoverageIsHundred | frontend/src/components/ForecastPanel.jsx:72 | a history with a value for every year of its span has coverage 100 |
| ForecastPanel.RoundPercentOfEqual | frontend/src/components/ForecastPanel.jsx:72 | equal counts round to 100 |
| ForecastPanel.CoverageRow | frontend/src/components/ForecastPanel.jsx:79-87 | the coverage line of the export, "n/a" with empty bounds without coverage |
| ForecastPanel.HistoryRow | frontend/src/components/ForecastPanel.jsx:88 | a historical line with the row's year and value and empty bounds |
| ForecastPanel.ForecastRow | frontend/src/components/ForecastPanel.jsx:89-95 | a forecast line with the point's year, value and bounds, missing bounds empty |
| ForecastPanel.CsvRows | frontend/src/components/ForecastPanel.jsx:77-96 | the header, the coverage line, one line per history row and one per forecast point, in that order |
| ForecastPanel.JoinRows | frontend/src/components/ForecastPanel.jsx:97 | each row joined with commas |
| ForecastPanel.CsvCellsArePlain | frontend/src/components/ForecastPanel.jsx:77-97 | with a number format free of commas and newlines, every cell of every line is too |
| ForecastPanel.CsvRoundTrip | frontend/src/components/ForecastPanel.jsx:97 | splitting the exported text at newlines and each line at commas gives back exactly the rows |
| ForecastPanel.LineRoundTrip | frontend/src/components/ForecastPanel.jsx:97 | a row of plain cells joined with commas has no newline and splits back into the row |
| ForecastPanel.ComputeSummary | frontend/src/components/ForecastPanel.jsx:189-211 | null exactly without a forecast, a valued history row or a forecast point; otherwise the change from the last valued history to the last forecast, its percentage unless the base is zero, and its yearly average |
| ForecastPanel.Handle | frontend/src/components/ForecastPanel.jsx:122-178 | without access, country or indicator the fixed message and nothing requested; otherwise both requests replace history and forecast, or the action's own failure message keeps them |
| ForecastPanel.NoRequestWithoutSelection | frontend/src/components/ForecastPanel.jsx:124-128 | a refused action does not depend on the service and keeps the forecast shown |
| ChartExplainer.ResolveLanguage | backend/fastapi_service/app/services/chart_explainer.py:71-79 | always one of ru, kz, en; the normalised requested language when it is one of them, otherwise Russian exactly when the question has a Russian letter |
| ChartExplainer.ResolveLanguageIsStable | backend/fastapi_service/app/services/chart_explainer.py:75-79 | asking again in the resolved language resolves to the same language, whatever the question |
| ChartExplainer.Localize | backend/fastapi_service/app/services/chart_explainer.py:82-84 | the Russian or Kazakh table for those languages; any language without a table of its own reads the English one |
| ChartExplainer.LocalizeUnknownIsEnglish | backend/fastapi_service/app/services/chart_explainer.py:82-84 | a language without a table of its own reads the English table |
| ChartExplainer.CanonicalCode | backend/fastapi_service/app/services/chart_explainer.py:76-77 | the three language codes are already trimmed and lower-case |
| ChartExplainer.SortedValued | backend/fastapi_service/app/services/chart_explainer.py:97-100 | exactly the valued points, ordered by year |
| ChartExplainer.MinOf | backend/fastapi_service/app/services/chart_explainer.py:123 | a value of the list no larger than any other |
| ChartExplainer.MaxOf | backend/fastapi_service/app/services/chart_explainer.py:124 | a value of the list no smaller than any other |
| ChartExplainer.PctBase | backend/fastapi_service/app/services/chart_explainer.py:108 | always positive: the first value's size, or at least 1 and the last value's size when the first is zero |
| ChartExplainer.PctChangeAlwaysDefined | backend/fastapi_service/app/services/chart_explainer.py:108-109 | the percentage change is always defined and has the sign of the change |
| ChartExplainer.TrendMeaning | backend/fastapi_service/app/services/chart_explainer.py:110-115 | flat exactly when the last value lies within the tolerance of the first, upward or downward exactly beyond it, and the tolerance is never below 0.01 |
| ChartExplainer.TrendMirrors | backend/fastapi_service/app/services/chart_explainer.py:110-115 | negating a series swaps upward and downward and keeps flat |
| ChartExplainer.SeriesStats | backend/fastapi_service/app/services/chart_explainer.py:96-129 | with any valued point, a positive count, first year ≤ last year, first and last values within min..max, and a defined percentage |
| ChartExplainer.SeriesStatsNoneIff | backend/fastapi_service/app/services/chart_explainer.py:101-102 | no statistics exactly when no point has a value |
| ChartExplainer.SeriesStatsBound | backend/fastapi_service/app/services/chart_explainer.py:104-124 | every valued point lies within the year span and the min..max range |
| ChartExplainer.ValuedPointIsSorted | backend/fastapi_service/app/services/chart_explainer.py:97-100 | every valued point occurs in the sorted list |
| ChartExplainer.SeriesStatsFromPoints | backend/fastapi_service/app/services/chart_explainer.py:104-128 | the count is that of the valued points, the change is last minus first, the trend is classified from them, and the first and last points are input points |
| ChartExplainer.ResolveProvider | backend/fastapi_service/app/services/chart_explainer.py:297-304 | never empty; auto picks Gemini when its key is set, else OpenAI when that key is set, else stays auto; an unset provider means OpenAI; any other setting comes back trimmed and lower-cased |
| ChartExplainer.ResolveProviderIsStable | backend/fastapi_service/app/services/chart_explainer.py:297-304 | resolving the resolved provider again changes nothing |
| ChartExplainer.FirstCrowded | backend/fastapi_service/app/services/chart_explainer.py:317-322 | the first dataset with too many series, or none exactly when every dataset is within the limit |
| ChartExplainer.Validate | backend/fastapi_service/app/services/chart_explainer.py:308-322 | no error exactly for a non-blank question with between one and the maximum of datasets, each within the country limit; the missing question is reported before the missing datasets |
| ChartExplainer.TooManyCountriesRejected | backend/fastapi_service/app/services/chart_explainer.py:317-322 | a dataset with too many series is refused with the message naming its indicator and the limit |
| ChartExplainer.FallbackTextMentions | backend/fastapi_service/app/services/chart_explainer.py:195-205 | the fallback answer starts with the intro, quotes the question under its label and a non-empty reason under its label |
| ChartExplainer.ExplainChart | backend/fastapi_service/app/services/chart_explainer.py:307-381 | an error exactly when validation fails; the local fallback exactly when there is no model name, and exactly when there is a non-empty warning; a provider answer names OpenAI or Gemini with its configured model |
| ChartExplainer.ExplainFallbackIff | backend/fastapi_service/app/services/chart_explainer.py:324-381 | the fallback is used exactly for a missing key of the chosen provider, an unknown provider or a failed call; otherwise the answer is the provider's own |
| ChartExplainer.MissingOpenAiKeyFallsBackInRussian | backend/fastapi_service/app/services/chart_explainer.py:328-334 | with OpenAI chosen and no key, a Russian request gets the local fallback quoting the question and the missing-key reason under the Russian labels |
| ChartExplainer.MissingOpenAiKeyAnswer | backend/fastapi_service/app/services/chart_explainer.py:328-334 | with OpenAI chosen and no key, the answer is the Russian fallback with the missing-key reason and warning |
| ChartExplainer.RussianLabels | backend/fastapi_service/app/services/chart_explainer.py:51-52 | the Russian question and reason labels |
| SavedPresetsPanel.StringOf | frontend/src/components/SavedPresetsPanel.jsx:13 | the chart type is kept exactly when the JSON value is a string |
| SavedPresetsPanel.Strings | frontend/src/components/SavedPresetsPanel.jsx:6 | only string items of the array, never more of them |
| SavedPresetsPanel.SafeStringArray | frontend/src/components/SavedPresetsPanel.jsx:5-6 | no entries for a value that is not an array, otherwise its string items |
| SavedPresetsPanel.StringsCount | frontend/src/components/SavedPresetsPanel.jsx:6 | every string item is kept as often as it occurs, in the order it occurs |
| SavedPresetsPanel.StringValues | frontend/src/components/SavedPresetsPanel.jsx:11-12 | a string list written back as a JSON array of strings |
| SavedPresetsPanel.StringsOfStrings | frontend/src/components/SavedPresetsPanel.jsx:6 | reading back a written string list gives the list |
| SavedPresetsPanel.NormalizePayload | frontend/src/components/SavedPresetsPanel.jsx:8-17 | each field is kept only when it has its expected type and otherwise takes its default; a payload that is not an object gives the defaults |
| SavedPresetsPanel.ToValueKeysUnique | frontend/src/components/SavedPresetsPanel.jsx:10-16 | the five payload keys are distinct |
| SavedPresetsPanel.ReadCountries | frontend/src/components/SavedPresetsPanel.jsx:11 | the countries read back from a written payload are those written |
| SavedPresetsPanel.ReadIndicators | frontend/src/components/SavedPresetsPanel.jsx:12 | the indicators read back from a written payload are those written |
| SavedPresetsPanel.ReadChartType | frontend/src/components/SavedPresetsPanel.jsx:13 | the chart type read back from a written payload is the one written |
| SavedPresetsPanel.ReadYears | frontend/src/components/SavedPresetsPanel.jsx:14-15 | the years read back from a written payload are those written, null included |
| SavedPresetsPanel.NormalizeToValue | frontend/src/components/SavedPresetsPanel.jsx:8-17 | normalising a written payload gives it back |
| SavedPresetsPanel.NormalizeIsIdempotent | frontend/src/components/SavedPresetsPanel.jsx:8-17 | normalising twice is normalising once |
| SavedPresetsPanel.ExistingByName | frontend/src/components/SavedPresetsPanel.jsx:27-31 | none exactly when no preset has the name; otherwise the last preset of that name |
| SavedPresetsPanel.SaveRequestFor | frontend/src/components/SavedPresetsPanel.jsx:53-71 | a blank name, then a signed-out user, is refused; otherwise the trimmed name with the normalised payload, as an update of the existing preset exactly when overwrite is on and the name exists |
| SavedPresetsPanel.SaveErrorText | frontend/src/components/SavedPresetsPanel.jsx:76-86 | the overwrite hint exactly for a 409 answer |
| SavedPresetsPanel.HandleSave | frontend/src/components/SavedPresetsPanel.jsx:53-88 | a refused save changes only the status; a sent one clears the form and reports success, or reports the failure and changes nothing else |
| SavedPresetsPanel.RefusedSaveSendsNothing | frontend/src/components/SavedPresetsPanel.jsx:54-62 | a refused save does not depend on the service and keeps the list |
| SavedPresetsPanel.HandleLoad | frontend/src/components/SavedPresetsPanel.jsx:90-94 | the normalised payload goes to the page, and the status says what was loaded |
| SavedPresetsPanel.DeleteTarget | frontend/src/components/SavedPresetsPanel.jsx:96-100 | a delete is sent exactly for a preset with a non-zero id, and for that id |
| Presets.ValidateName | backend/django_service/core/serializers.py:63-67 | accepted exactly when the trimmed name has at least three characters, and then the trimmed name |
| Presets.ValidateInput | backend/django_service/core/serializers.py:57-67 | accepted exactly with a valid name and a payload |
| Presets.Find | backend/django_service/core/views.py:128-129 | the requester's preset with that id, none exactly when there is no such preset |
| Presets.FindFrom | backend/django_service/core/views.py:128-129 | the search from a position past which nothing matched finds the requester's preset, or none exactly when there is none |
| Presets.Create | backend/django_service/core/views.py:111-122 | an invalid body is a 400 and a name the user already has a 409, both leaving the store alone; otherwise 201 with a new preset of the user appended; the store's invariant is kept |
| Presets.Get | backend/django_service/core/views.py:131-136 | 200 exactly when the requester owns a preset with that id, then that preset; otherwise 404 |
| Presets.Update | backend/django_service/core/views.py:138-160 | 404 for a preset the requester does not own; 200 exactly with a valid body whose name no other preset of the user has, then only that preset's name, payload and update time change; any refusal leaves the store alone; the invariant is kept |
| Presets.RenameKeepsValid | backend/django_service/core/views.py:148-159 | renaming a preset to a name no other preset of its owner has keeps the store's invariant |
| Presets.Delete | backend/django_service/core/views.py:162-168 | 404 for a preset the requester does not own; otherwise 204 and exactly that preset is removed; the invariant is kept |
| Presets.DeleteThenGetNotFound | backend/django_service/core/views.py:162-168 | a deleted preset is then not found |
| Presets.CreateTwiceConflicts | backend/django_service/core/views.py:116-120 | creating the same preset twice is refused the second time with 409 and leaves the store alone |
| Presets.ForeignPresetIsHidden | backend/django_service/core/views.py:128-166 | another user's preset cannot be read, updated or deleted: each answers 404 and changes nothing |
| Presets.NewerFirstIsTotal | backend/django_service/core/views.py:108 | the listing order is a total order |
| Presets.OwnedBy | backend/django_service/core/views.py:108 | only presets of the user |
| Presets.OwnedByCount | backend/django_service/core/views.py:108 | each of the user's presets is kept as often as it is stored, and no other |
| Presets.List | backend/django_service/core/views.py:107-109 | a permutation of the user's presets, newest update first and higher id first on ties |
| Presets.ListIsExactlyOwn | backend/django_service/core/views.py:107-109 | a preset is listed exactly when it is stored and the user owns it |
| Agreements.NotLaterIsTransitive | backend/django_service/core/utils.py:9 | the published-then-id order of agreements is transitive |
| Agreements.ActiveAgreement | backend/django_service/core/utils.py:6-11 | none exactly when no agreement is active; otherwise an active agreement that no other active one follows in the published-then-id order |
| Agreements.LaterPublishedWins | backend/django_service/core/utils.py:6-11 | of two active agreements the later published one is the active agreement |
| Agreements.HasAccepted | backend/django_service/core/utils.py:14-18 | true exactly for a signed-in user with an acceptance row of the current active agreement |
| Agreements.OtherAcceptancesDoNotCount | backend/django_service/core/utils.py:14-18 | accepting any agreement other than the active one does not change the answer |
| Agreements.ActiveAgreementView | backend/django_service/core/views.py:45-54 | inactive exactly when no agreement is active; otherwise an active agreement |
| Agreements.Accept | backend/django_service/core/views.py:57-72 | 404 without an active agreement; 200 exactly when the user already accepted it, with nothing stored; 201 with exactly one new acceptance; afterwards the user has accepted |
| Agreements.AcceptIsIdempotent | backend/django_service/core/views.py:65-72 | accepting twice stores the acceptance once: the first answer is 201, the second 200 with nothing changed |
| Accounts.SyncStaff | backend/django_service/core/signals.py:16-29 | a superuser is left alone; anyone else becomes staff exactly when the role is admin, and is saved exactly when the flag changes |
| Accounts.SyncStaffSettles | backend/django_service/core/signals.py:16-29 | a second sync with the same role changes and saves nothing |
| Accounts.WithRole | backend/django_service/core/signals.py:16-17 | only the user's profile gets the new role |
| Accounts.WithStaffSynced | backend/django_service/core/signals.py:22-29 | only the user's row is synced |
| Accounts.SetRoleKeepsValid | backend/django_service/core/signals.py:16-29 | a role change followed by the sync keeps ids unique and every ordinary user staff exactly when admin |
| Accounts.SetRole | backend/django_service/core/signals.py:16-29 | saving a profile with a role syncs the owner's staff flag and keeps the invariant |
| Accounts.AdminRoleGrantsStaff | backend/django_service/core/signals.py:26-29 | after a role change an ordinary user is staff exactly when the new role is admin |
| Accounts.CharFieldErrors | backend/django_service/core/serializers.py:11-13 | a `CharField` is fine exactly when present, non-blank after trimming and within its length bounds; a missing one is "required", a whitespace-only one "may not be blank" |
| Accounts.FieldErrors | backend/django_service/core/serializers.py:10-14 | every failing field reports, together; there are no errors exactly when the fields are valid, and a malformed non-blank e-mail is among them |
| Accounts.ValidateRegistration | backend/django_service/core/serializers.py:10-22 | accepted exactly with valid fields (e-mail included) and, when an agreement is active, accepting it; all field errors first, then the agreement refusal as a non-field error; the accepted fields are the trimmed ones |
| Accounts.NormalizeEmail | backend/django_service/core/serializers.py:26-30 | `create_user` keeps everything up to the last '@' of the stripped address and lower-cases the domain after it; an address without '@' is kept as given |
| Accounts.NormalizeEmailIdempotent | backend/django_service/core/serializers.py:26-30 | normalising a normalised address changes nothing |
| Accounts.NormalizeEmailExample | backend/django_service/core/serializers.py:26-30 | "Ann@X.Org" is stored as "Ann@x.org": only the domain is lower-cased |
| Accounts.AddUser | backend/django_service/core/serializers.py:24-33 | one new user with a fresh id, the normalised e-mail and not staff, one profile with the user role, and an acceptance of the active agreement when there is one; the invariant is kept |
| Accounts.Register | backend/django_service/core/views.py:20-33 | 400 for invalid input; 201 exactly for valid input with a free username, adding the user, and answering with the user role and whether an agreement was accepted; a refusal stores nothing |
| Accounts.MalformedEmailRefused | backend/django_service/core/serializers.py:12 | a non-blank e-mail the validator rejects gets 400 with the e-mail error and stores nothing |
| Accounts.RegisteredUserHasOneProfile | backend/django_service/core/signals.py:10-13 | a new user gets exactly one profile, with the user role, and is not staff |
| RolePermission.HasPermission | backend/django_service/core/permissions.py:8-14 | denied without a signed-in user or a profile; otherwise granted exactly for a listed role or a staff user |
| RolePermission.NoRolesAdmitsOnlyStaff | backend/django_service/core/permissions.py:14 | with no roles listed only staff users with a profile pass |
| RolePermission.MoreRolesAdmitMore | backend/django_service/core/permissions.py:14 | listing more roles never refuses a user who passed |
| RolePermission.StaffBypassesRoles | backend/django_service/core/permissions.py:14 | a staff user always passes, and anyone else passes exactly for a listed role |
| SimpleCors.WithCorsHeaders | backend/django_service/config/simple_cors.py:20-24 | the five CORS headers are set, replacing any of the same name in any letter case, and all other headers, the status and the body are kept |
| SimpleCors.Handle | backend/django_service/config/simple_cors.py:9-26 | a preflight gets an empty 200 and any other request the downstream response; an allowed origin adds the CORS headers, and anything else leaves the response as it is |
| SimpleCors.PreflightSkipsDownstream | backend/django_service/config/simple_cors.py:10-11 | a preflight never reaches the downstream handler and is answered 200 |
| SimpleCors.AllowOriginIff | backend/django_service/config/simple_cors.py:19-20 | the allow-origin header is present exactly for an allowed origin, and then echoes it |
| Deps.GetToken | backend/fastapi_service/app/deps.py:15-18 | the bearer credentials exactly when present and non-empty, otherwise 401 "Missing token" |
| Deps.FallbackUserId | backend/fastapi_service/app/deps.py:61-65 | the first truthy of user_id, id and sub, converted as Python `int` does, and 0 when none is truthy or the conversion fails |
| Deps.GroupedUserIdClaim | backend/fastapi_service/app/deps.py:61-65 | a `user_id` claim "1_0" is the user 10, as `int()` reads digit grouping |
| Deps.PyStr | backend/fastapi_service/app/deps.py:68 | a string claim as is and an integer claim in decimal |
| Deps.FallbackContext | backend/fastapi_service/app/deps.py:61-68 | the role defaults to "user", the agreement is accepted exactly when its claim is truthy, and the user id is the fallback id |
| Deps.JwtClaims | backend/fastapi_service/app/deps.py:57-59 | an empty claim set is refused like an invalid token |
| Deps.ContextFrom | backend/fastapi_service/app/deps.py:40-68 | an introspected context is used as is; a rejected token is 401; an unreachable auth service is 503 in strict mode and otherwise falls back to the JWT claims, 401 when they do not verify; an unexpected failure is 500 |
| Deps.StrictIgnoresJwt | backend/fastapi_service/app/deps.py:51-56 | in strict mode the local JWT check never matters |
| Deps.RequireRoles | backend/fastapi_service/app/deps.py:71-82 | the context passes exactly when its role is non-empty and allowed, otherwise 403 "Insufficient role" |
| Deps.RequireAgreement | backend/fastapi_service/app/deps.py:85-91 | the context passes exactly when the agreement is accepted, otherwise 403 "User agreement required" |
| Deps.GuardRoles | backend/fastapi_service/app/deps.py:15-82 | a missing token is 401 before anything else and leaves the cache alone; an admitted context always has an allowed, non-empty role |
| Deps.StrictAdmitsOnlyIntrospected | backend/fastapi_service/app/deps.py:40-56 | in strict mode an admitted context comes from a live cache entry or from the auth service's own answer for the token |
| Authz.CacheGet | backend/fastapi_service/app/services/authz.py:35-43 | the cached context exactly while its expiry lies after now; a stale or missing entry is dropped |
| Authz.CacheSet | backend/fastapi_service/app/services/authz.py:46-47 | the token's entry expires the non-negative TTL after now and every other entry is kept |
| Authz.SetThenGet | backend/fastapi_service/app/services/authz.py:35-47 | a stored context is found exactly before its TTL runs out, and never with a zero or negative TTL |
| Authz.StripTrailingSlashes | backend/fastapi_service/app/services/authz.py:55 | the longest prefix without a trailing slash, removing only slashes |
| Authz.IntrospectUrl | backend/fastapi_service/app/services/authz.py:55-57 | the stripped base followed by the path, with a leading slash added when missing |
| Authz.IntrospectUrlJunction | backend/fastapi_service/app/services/authz.py:56-57 | a path without a leading slash is joined by exactly one slash |
| Authz.AsInt | backend/fastapi_service/app/services/authz.py:81 | Python's `isinstance(v, int)`, which booleans pass |
| Authz.ContextOf | backend/fastapi_service/app/services/authz.py:74-84 | a context exactly for an object with an integer user id, a string role and a boolean agreement flag; otherwise the schema error, and a crash for a non-object body |
| Authz.Classify | backend/fastapi_service/app/services/authz.py:60-84 | a transport error is "unavailable" with its text; 401 and 403 are an invalid token; a 5xx is "Django auth error (status)"; any other non-2xx answer, or a 2xx without a JSON body, is "Unexpected Django introspection response"; a 2xx with a body is read by ContextOf, and only that gives a context |
| Authz.Introspect | backend/fastapi_service/app/services/authz.py:50-86 | a live cache entry answers without a request; otherwise the answer is classified and a success is cached |
| Authz.FailureCachesNothing | backend/fastapi_service/app/services/authz.py:60-86 | a failed introspection leaves no entry for the token |
| Authz.CacheHitSkipsDjango | backend/fastapi_service/app/services/authz.py:51-53 | a live cache entry makes the outcome independent of the auth service |
| RateLimit.NewLimiter | backend/fastapi_service/app/middleware/rate_limit.py:27-33 | the rate is raised to at least 0.1 per second and the burst to at least one request, no client has a bucket, and every bucket invariant holds |
| RateLimit.Refilled | backend/fastapi_service/app/middleware/rate_limit.py:48-49 | the refill is min(burst, tokens + max(elapsed, 0)·rps): never fewer tokens, never above the burst or above tokens + elapsed·rps, and equal to one of those two; a clock that has not advanced adds nothing |
| RateLimit.Allow | backend/fastapi_service/app/middleware/rate_limit.py:40-54 | a new client is admitted with burst − 1 tokens left; a known client is admitted exactly when its refilled bucket holds a token, which is then spent; no other bucket changes and 0 ≤ tokens ≤ burst is kept |
| RateLimit.Burst | backend/fastapi_service/app/middleware/rate_limit.py:40-54 | a run of requests gets one decision each and keeps the bucket invariant |
| RateLimit.DrainAtSameInstant | backend/fastapi_service/app/middleware/rate_limit.py:51-54 | a bucket with k tokens admits exactly k requests at one instant and refuses the next |
| RateLimit.FreshClientGetsBurst | backend/fastapi_service/app/middleware/rate_limit.py:44-54 | a new client gets exactly `burst` requests at one instant and the next is refused |
| RateLimit.DrainedBucketRecovers | backend/fastapi_service/app/middleware/rate_limit.py:48-54 | an empty bucket admits again once enough time has passed to earn one token |
| RateLimit.DrainedBucketStillRefused | backend/fastapi_service/app/middleware/rate_limit.py:48-54 | an empty bucket keeps refusing while the elapsed time times the rate is below one token |
| RateLimit.Dispatch | backend/fastapi_service/app/middleware/rate_limit.py:56-72 | when disabled or off "/api/", the request passes and nothing changes; otherwise it passes exactly when the client's bucket allows it, and is refused with 429 and `Retry-After: 1` |
| Ingestion.GetOrCreateCountry | backend/fastapi_service/app/services/ingestion.py:12-19 | the stored country of the upper-cased code and no change when it exists; otherwise one new country named by its code; either way the code is then found |
| Ingestion.GetOrCreateIndicator | backend/fastapi_service/app/services/ingestion.py:22-29 | the stored indicator and no change when it exists; otherwise one new World Bank indicator named by its code; either way the code is then found |
| Ingestion.GetOrCreateIdempotent | backend/fastapi_service/app/services/ingestion.py:12-29 | a second get-or-create finds the first one's row and changes nothing |
| Series.MinYear | backend/fastapi_service/app/services/ingestion.py:36 | a year of the series no larger than any other, as `min` and the panel's `Math.min` give |
| Series.MaxYear | backend/fastapi_service/app/services/ingestion.py:36 | a year of the series no smaller than any other, as `max` and the panel's `Math.max` give |
| Ingestion.CalculateExpected | backend/fastapi_service/app/services/ingestion.py:32-36 | 0 exactly for an empty series; otherwise the number of years from the earliest to the latest, inclusive |
| Ingestion.InsertAbsent | backend/fastapi_service/app/services/ingestion.py:53-74 | with an autoflushing session: the stored rows are kept in front, and at most one row per series entry is added, each for the pair and from the World Bank |
| Ingestion.InsertAbsentCovers | backend/fastapi_service/app/services/ingestion.py:53-74 | afterwards the pair holds a year exactly when it held it before or the series has it |
| Ingestion.InsertAbsentOnlyNew | backend/fastapi_service/app/services/ingestion.py:54-64 | every added row is for a year the pair did not hold, and no two added rows share a year |
| Ingestion.InsertAbsentIdempotent | backend/fastapi_service/app/services/ingestion.py:53-74 | inserting the same series again adds nothing |
| Ingestion.InsertNothingWhenAllStored | backend/fastapi_service/app/services/ingestion.py:63-64 | a series whose years are all stored adds nothing |
| Ingestion.Unflushed | backend/fastapi_service/app/services/ingestion.py:53-74 | without autoflush: at most one pending row per series entry, each for the pair, from the World Bank, and for a year the table did not hold before the loop |
| Ingestion.UnflushedMatchesInsertAbsent | backend/fastapi_service/app/services/ingestion.py:53-74 | when the pending rows have distinct years, the loop adds the same rows with autoflush as without |
| Ingestion.UnflushedCoversMissing | backend/fastapi_service/app/services/ingestion.py:53-74 | without autoflush every series year the pair lacks gets a pending row |
| Ingestion.UnflushedNothingWhenAllStored | backend/fastapi_service/app/services/ingestion.py:63-64 | without autoflush a series whose years are all stored leaves nothing pending |
| Ingestion.StoredYearAppend | backend/fastapi_service/app/services/ingestion.py:53-74 | appending rows adds exactly their years to what the pair holds |
| Ingestion.IngestIndicator | backend/fastapi_service/app/services/ingestion.py:39-96 | a failed fetch stores nothing else and records a failed run with the error; a fetched series adds the loop's rows and a completed run with their counts, unless the commit hits the uniqueness constraint, which stores nothing at all, not even the run; with autoflush the commit always succeeds |
| Ingestion.IngestCompleted | backend/fastapi_service/app/services/ingestion.py:75-90 | a completed run with the next id whose inserted, total, expected and missing counts are those of the loop and the series, reported in the summary |
| Ingestion.AutoflushIrrelevantForDistinctYears | backend/fastapi_service/app/services/ingestion.py:53-83 | without autoflush the outcome is the autoflushing one whenever the pending rows have distinct years |
| Ingestion.RepeatedYearFailsWithoutAutoflush | backend/fastapi_service/app/services/ingestion.py:53-96 | without autoflush a series giving 2020 twice on an empty table fails and stores nothing, while with autoflush it succeeds |
| Ingestion.UnflushedRepeatsYear | backend/fastapi_service/app/services/ingestion.py:53-74 | on an empty table both entries of a twice-given year are left pending |
| Ingestion.AppendNewKeepsUnique | backend/fastapi_service/app/models.py:44 | appending rows for new, distinct years of the pair keeps the uniqueness constraint |
| Ingestion.InsertAbsentRowsAreNew | backend/fastapi_service/app/services/ingestion.py:54-64 | the autoflushing loop's added rows are for the pair, for years it lacked, and pairwise distinct |
| Ingestion.IngestKeepsKeysUnique | backend/fastapi_service/app/services/ingestion.py:53-83 | ingestion never stores two observations for the same country, indicator and year, with autoflush or without |
| Ingestion.IngestCoversAndRepeats | backend/fastapi_service/app/services/ingestion.py:39-90 | after a successful ingestion every fetched year is stored, and a second ingestion succeeds, inserts nothing and changes no table |
| IngestScript.BuildHeaders | backend/fastapi_service/scripts/ingest_baseline.py:9-12 | no headers without a token, else exactly a bearer authorisation header |
| IngestScript.RetryFrom | backend/fastapi_service/scripts/ingest_baseline.py:23-35 | the body of the first reply below 400, or the error status of the last attempt, which is not 429, 502 or 503 or was past the retry budget; never more than retries + 1 attempts |
| IngestScript.RetryableWithinBudgetIsRetried | backend/fastapi_service/scripts/ingest_baseline.py:32-34 | a 429, 502 or 503 at an attempt within the retry budget is retried: the outcome is that of the next attempt |
| IngestScript.EarlierAttemptsRetried | backend/fastapi_service/scripts/ingest_baseline.py:32-34 | every attempt before the last got 429, 502 or 503 and was within the retry budget |
| IngestScript.IngestIndicator | backend/fastapi_service/scripts/ingest_baseline.py:15-35 | between 1 and retries + 1 requests, with a wait of delay·n after the n-th failed attempt |
| IngestScript.DefaultRetriesGiveUp | backend/fastapi_service/scripts/ingest_baseline.py:32-35 | with the default two retries, a service that keeps answering 503 is asked three times and the error is 503 |

## Left out

- Network and database I/O: the httpx and axios calls, SQLAlchemy sessions and the Django ORM. They are parameters or sequences of rows. Their timeouts and connection handling are not modelled.
- Floating point: every number is an exact `real`. numpy's `polyfit`, `percentile` and `std`, and `sqrt`, are parameters. Only `std >= 0` and the square-root laws are assumed of them.
- Python's `round(x, 4)` is modelled as exact round half to even at four decimals, not as rounding of binary floats.
- Float formatting (`:.2f`, `toFixed`) inside summary texts, metric strings and CSV cells is not modelled. Those texts are compared only up to their numeric arguments.
- String operations are ASCII-only. There is no Unicode case folding, and only ASCII whitespace is trimmed: Python's `strip()` also removes U+001C..U+001F, JavaScript's `trim()` does not, and neither set includes the non-ASCII spaces both languages also remove.
- Agreements.ActiveAgreement assumes the database sorts a null `published_at` last under `order_by("-published_at")`, as SQLite and MySQL do. PostgreSQL and Oracle put nulls first on a descending order, so there a null-dated active agreement would win. The engine is configuration outside this model.
- The `auth` throttle scope of `RegisterView` (backend/django_service/core/views.py:18) and the other throttles are not modelled. A throttled request gets 429 before any of the modelled logic runs.
- Django's `EmailValidator` is the parameter `isEmail` of the registration functions. `normalize_username` (Unicode NFKC, the identity on ASCII) and password hashing are not modelled: the stored password is the cleaned one.
- `Promise.all` in the client is reduced to all-succeed-or-error, and request interleaving is not modelled. Neither is the 150 ms pause between the Lorenz segment requests (frontend/src/api/worldBankAPI.js:59).
- `time.sleep` in the ingest retry loop is recorded as a list of waits. No time passes.
- The threading lock around the FastAPI caches is not modelled. Calls are taken to be sequential.
- The clock, the current UTC year and the fetch-time string are explicit parameters.
- Console logging, `print` and the structured log lines are not modelled.
- React rendering, hooks scheduling and the Chart.js options are not modelled. This includes `buildForecastChart` (frontend/src/components/ForecastPanel.jsx:7-48), which only styles datasets.
- PNG and CSV downloads are not modelled: the blob, the anchor element and the file names. The CSV rows themselves are modelled.
- Translations are parameters. The I18nContext provider is not part of this model.
- JWT decoding and signature checking are a parameter (`verifyJwt`). Python's `str()` of non-text claims is the parameter `repr`. `get_jwt_payload` and `get_current_user` are not modelled beyond that.
- `_build_data_summary`, the prompt texts and the OpenAI and Gemini HTTP calls of the chart explainer are parameters (`summarize`, `engine`).
- The Django `MeView`, `IntrospectTokenView` and token views (backend/django_service/core/views.py:36-43 and 75-101) are not modelled. Only the context they return is, through `Authz`.
- SavedPresetsPanel: the reload on sign-out and the confirmation dialog of `handleDelete` are not modelled. Deletion is `DeleteTarget` plus the store's `Delete`.
- The session's autoflush setting is not visible in the ingestion code, so it is the parameter `autoflush` of `Ingestion.IngestIndicator`. SQLAlchemy's default is on; the FastAPI test fixture turns it off (backend/fastapi_service/tests/test_api_endpoints.py:40-46). A failed commit is modelled as the call storing nothing, with the error text "PendingRollbackError".
- The command-line `main()` and `list_runs` of the ingest script are not modelled. The per-indicator retry loop and the run summary are modelled (IngestScript.RetryFrom, IngestScript.IngestIndicator).
- Deps.GuardRoles states only the missing-token case and that an admitted role is among the allowed ones. The other outcomes are stated by `Deps.ContextFrom` and `Deps.StrictAdmitsOnlyIntrospected`.
- Deps.PyStr states only text and integer claims. Booleans and other values go through Python's `str` and `repr`, which the parameter stands for.
- Correlation.ComputeCorrelation's own ensures gives only the fewer-than-three-pairs case. The zero-variance case, the [-1, 1] bound, symmetry and order independence are separate lemmas.
- WorldBank.FastApiFetch states only that a returned series is in year order and fully valued. The row contents are those of the shared normalisation, stated by its own members.
- AnalysisContext.MergeCatalog's own ensures states the length only. Its contents are stated by `MergeTakesFetched` and `MergeKeepsPlaces`.
- Lorenz.TinyPopulationDoesNotAdvance: the cumulative population share strictly increases only for population shares of at least 0.0001. A smaller share can be rounded away at four decimals, and this lemma exhibits such a case.

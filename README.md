# ER-visit prediction: feature and label queries

`helper_functions.py` builds the training tables of an ER-visit prediction
model from a SQLite database with four tables: Utilization, Procedure,
Diagnosis and Demographics. It has five query builders and one renamer:

- `load_label_data` gives one row per patient with Utilization rows in
  `[as_of_date, as_of_end_date)` whose id passes the Demographics deceased
  filter. The row holds `er_visit`: 0 when the patient's ER_Visits in that
  window sum to 0, and 1 otherwise.
- `load_procedure_features`, `load_diagnosis_features` and
  `load_utilization_features` sum 16, 18 and 3 count columns per patient over
  the window `(feature_start_date, feature_end_date]`.
- `load_demographics_features` recodes gender into `female_bool` and keeps
  `birth_year`, one row for each Demographics row that passes the deceased
  filter.
- `rename_feature_dfs` prefixes every column except `patient_id` with
  `<month_val>_month_`, in place, so that tables built over different windows
  can be joined on `patient_id`.

The model has five modules:

- `SqlText` (`sql_text.dfy`) gives SQLite's BINARY ordering of TEXT values and
  the two date windows. Dates are compared as text. It also proves that on
  `YYYY-MM-DD` strings this text order is the calendar order.
- `GroupBy` (`group_by.dfy`) computes `SUM(...) ... GROUP BY Patient Id` as a
  fold over the rows. The fold is proved against a declarative
  specification: ids are distinct, exactly the patients present get a group,
  and each sum is that patient's column sum.
- `HelperFunctions` (`queries.dfy`) holds the five query builders as
  functions over in-memory tables.
- `QueryProperties` (`query_properties.dfy`) proves consequences of those
  builders: window edges, what the label means, the deceased filter's edges,
  and worked examples.
- `Rename` (`rename.dfy`) holds Python's `str(int)`, the new column names,
  and a `DataFrame` class. Its `RenameFeatureDfs` method runs the renaming
  loop in place and is proved to give the specified names.

Two places where the model follows the code rather than its description:

- The deceased filter is modelled as written: `Deceased Date IS NULL OR
  Deceased Date < as_of_date`. That keeps patients who died before the
  as-of date and drops those who die on or after it. The docstring says the
  filter keeps patients who are alive at the as-of date.
  `DeathAfterAsOfDateExcludesLabel` and `DeceasedFilterEdges` state this
  behaviour.
- The diagnosis query sums 18 categories, and `DIAGNOSIS_COLUMNS` lists all 18.

## Model

| member | source | states |
|---|---|---|
| SqlText.BeforeIrreflexive | helper_functions.py:23-24 | no TEXT value sorts before itself |
| SqlText.BeforeAsymmetric | helper_functions.py:23-24 | if a < b as text then not b < a |
| SqlText.BeforeTransitive | helper_functions.py:67-68 | the text order is transitive |
| SqlText.BeforeTotal | helper_functions.py:67-68 | any two TEXT values are ordered one way or the other or are equal |
| SqlText.LabelWindowEdges | helper_functions.py:23-24 | a row dated on as_of_date is in the label window iff the window is non-empty; a row dated on as_of_end_date never is |
| SqlText.FeatureWindowEdges | helper_functions.py:67-68 | a row dated on feature_start_date is never in the feature window; one dated on feature_end_date is iff start < end |
| SqlText.FeatureWindowEmptyWhenEqual | helper_functions.py:67-68 | with equal start and end dates no date is in the feature window |
| SqlText.LabelWindowEmptyWhenEqual | helper_functions.py:23-24 | with equal as-of and end dates no date is in the label window |
| SqlText.FeatureWindowConvex | helper_functions.py:67-68 | a date between two in-window dates is in the window |
| SqlText.DecimalValue | helper_functions.py:23-24 | the value of an n-digit string is below 10^n |
| SqlText.DigitsBeforeIsLess | helper_functions.py:23-24 | for digit strings of one length, text order iff numeric order |
| SqlText.BeforeAfterCommonPrefix | helper_functions.py:23-24 | a common prefix does not change the text order |
| SqlText.BeforeConcat | helper_functions.py:23-24 | text order of two concatenations whose first parts have one length is decided by the first parts, then the rest |
| SqlText.IsoDateTextOrderIsChronological | helper_functions.py:23-24 | on 'YYYY-MM-DD' strings, text order holds iff the first date is earlier by year, then month, then day |
| SqlText.DigitsEqualIffValuesEqual | helper_functions.py:23-24 | two digit strings of one length are equal iff their values are |
| GroupBy.AddInto | helper_functions.py:69 | folding one row into the groups keeps every group's width and adds at most one group |
| GroupBy.AddIntoIds | helper_functions.py:69 | after folding a row in, a patient has a group iff it had one before or is the row's patient |
| GroupBy.AddIntoDistinct | helper_functions.py:69 | folding a row in keeps group ids distinct |
| GroupBy.AddIntoSums | helper_functions.py:49-69 | folding a row in adds its counts to its patient's sums and leaves the others unchanged |
| GroupBy.GroupBySum | helper_functions.py:49-69 | the grouped result has one sum per count column in every group |
| GroupBy.GroupBySumCorrect | helper_functions.py:49-69 | the fold meets the GROUP BY specification: distinct ids, a group iff the patient has a row, each sum equals the patient's column sum |
| GroupBy.GroupSumMatches | helper_functions.py:49-69 | looking a patient up in a correct result gives that patient's column sum, and 0 for a patient with no rows |
| GroupBy.ColumnSumNonZero | helper_functions.py:17 | with non-negative counts a patient's column sum is non-negative, and non-zero iff one of the patient's rows has a positive count |
| GroupBy.GroupedSumUnique | helper_functions.py:49-69 | two results meeting the GROUP BY specification hold the same groups, in any order |
| HelperFunctions.LabelWindowRows | helper_functions.py:23-24 | the label WHERE keeps each row iff its date is in [as_of_date, as_of_end_date), with its multiplicity |
| HelperFunctions.FeatureWindowRows | helper_functions.py:67-68 | the feature WHERE keeps each row iff its date is in (start, end], with its multiplicity |
| HelperFunctions.FeatureQuery | helper_functions.py:49-69 | the grouped sums of the in-window rows; a patient has a row iff some row of theirs is in the window |
| HelperFunctions.LoadProcedureFeatures | helper_functions.py:48-72 | 16 grouped sums over the in-window procedure rows; one row per patient with an in-window row |
| HelperFunctions.LoadDiagnosisFeatures | helper_functions.py:85-111 | 18 grouped sums over the in-window diagnosis rows; one row per patient with an in-window row |
| HelperFunctions.LoadUtilizationFeatures | helper_functions.py:145-156 | 3 grouped sums over the in-window utilization rows; one row per patient with an in-window row |
| HelperFunctions.ErVisitFlag | helper_functions.py:17 | the flag is 0 or 1, and 0 iff the summed ER visits are 0 |
| HelperFunctions.KeepInSubquery | helper_functions.py:16-32 | the outer query yields at most one row per group |
| HelperFunctions.KeepInSubqueryIds | helper_functions.py:27-32 | a grouped patient gets a label row iff it is in the Demographics subquery |
| HelperFunctions.KeepInSubqueryRows | helper_functions.py:16-17 | label ids are distinct and each flag is taken from the patient's grouped ER sum |
| HelperFunctions.LoadLabelData | helper_functions.py:15-35 | distinct patient ids; a label row iff the patient has an in-window Utilization row and passes the deceased filter; er_visit is the flag of the in-window ER sum |
| HelperFunctions.LabelQueryCorrect | helper_functions.py:15-33 | the same three facts for the composition of WHERE, GROUP BY, CASE and the IN subquery |
| HelperFunctions.Recode | helper_functions.py:124-126 | id and birth year copied; female_bool is 1 iff Gender is 'female', else 0 |
| HelperFunctions.LoadDemographicsFeatures | helper_functions.py:123-132 | a row is in the result iff it is the recoding of some Demographics row passing the deceased filter; no more rows than the table |
| QueryProperties.FeatureQueryEmptyWhenDatesEqual | helper_functions.py:67-68 | with feature_start_date == feature_end_date every feature query is empty |
| QueryProperties.FeatureQueryEdgeRows | helper_functions.py:67-68 | a row dated on the start date is excluded; one dated on the end date is included |
| QueryProperties.FeatureWindowKeepsAll | helper_functions.py:67-68 | when every date is in the window, the WHERE keeps the table unchanged |
| QueryProperties.DigestiveDiagnosesAreSummed | helper_functions.py:86-87 | three in-window diagnosis rows of one patient with digestive counts 1, 0, 2 give one row with digestive_dia 3 |
| QueryProperties.SumOfThree | helper_functions.py:87 | a patient's column sum over three of their rows is the sum of the three counts |
| QueryProperties.OnlyPatientGroups | helper_functions.py:69 | a correct GROUP BY over rows of a single patient is one row holding that patient's sums |
| QueryProperties.LabelIsOneIffErVisitInWindow | helper_functions.py:16-24 | with non-negative ER_Visits, er_visit is 1 iff the patient has a row in the label window with ER_Visits > 0 |
| QueryProperties.LabelWindowKeepsAll | helper_functions.py:23-24 | when every date is in the label window, the WHERE keeps the table unchanged |
| QueryProperties.SinglePatientLabel | helper_functions.py:15-33 | when all Utilization rows are one eligible patient's, the label table is that patient's single row |
| QueryProperties.ErVisitsZeroAndTwoGiveOne | helper_functions.py:16-25 | ER_Visits 0 on as_of_date and 2 inside the window give the single label row er_visit = 1 |
| QueryProperties.DeathOnAsOfDateExcludesLabel | helper_functions.py:29-32 | a patient whose recorded death is on as_of_date gets no label |
| QueryProperties.DeathAfterAsOfDateExcludesLabel | helper_functions.py:29-32 | a patient whose recorded death is after as_of_date gets no label either |
| QueryProperties.DeceasedFilterEdges | helper_functions.py:128-129 | the deceased filter drops a death on or after as_of_date and keeps one before it |
| QueryProperties.DemographicsRowByRow | helper_functions.py:123-130 | the demographics query distributes over concatenation of the table |
| QueryProperties.DemographicsSingleRow | helper_functions.py:123-130 | one Demographics row gives its recoding when it passes the filter, and nothing otherwise |
| Rename.DigitChar | helper_functions.py:175 | a digit below 10 becomes a digit character of that value |
| Rename.NatToString | helper_functions.py:175 | str() of a natural number is a non-empty run of digits |
| Rename.IntToString | helper_functions.py:175 | str() of an int: a leading minus iff negative, then digits |
| Rename.DecimalValueSnoc | helper_functions.py:175 | appending a digit multiplies the value by ten and adds the digit |
| Rename.NatToStringRoundTrip | helper_functions.py:175 | the digits str() writes spell the number back |
| Rename.IntToStringRoundTrip | helper_functions.py:175 | int(str(n)) == n |
| Rename.IntToStringInjective | helper_functions.py:175 | different month values give different strings |
| Rename.Prefix | helper_functions.py:175 | the prefix is str(month_val) followed by the 7 characters '_month_' |
| Rename.PrefixedIsNotId | helper_functions.py:174-175 | no renamed column is called patient_id |
| Rename.PrefixedNameDeterminesOrigin | helper_functions.py:175 | a renamed column determines both month_val and the original name |
| Rename.RenamedColumnsDistinct | helper_functions.py:173-175 | renaming keeps distinct column names distinct |
| Rename.DifferentWindowsShareOnlyId | helper_functions.py:173-175 | tables renamed with different month values share only patient_id |
| Rename.RenameTwiceDoublePrefixes | helper_functions.py:173-175 | renaming twice prefixes every feature column twice, so the renamer is not idempotent |
| Rename.ThreeMonthDigestive | helper_functions.py:160-164 | with month_val 3, digestive_dia becomes 3_month_digestive_dia and patient_id keeps its name |
| Rename.RenameLabel | helper_functions.py:175 | renaming one label keeps the number of columns |
| Rename.DataFrame.RenameInPlace | helper_functions.py:175 | every label equal to the old name becomes the new one; cells unchanged |
| Rename.RenameFeatureDfs | helper_functions.py:173-177 | returns the same table, whose columns are now the specified renamed columns and whose cells are unchanged |

## Left out

- The SQLite connection and `pd.read_sql_query` (lines 35, 72, 111, 132,
  156) are left out. A table is a sequence of rows passed in, and a result
  is a sequence of rows.
- Building the SQL text with f-strings is left out. The parameters are
  used as values, so quoting and injection through the date strings are
  not modelled.
- `str(datetime.date)` is not modelled. Dates arrive as strings.
  `IsoDateTextOrderIsChronological` proves that the text comparison is the
  calendar comparison when the strings have the `YYYY-MM-DD` form.
- The row order of a GROUP BY result is unspecified in SQL.
  `GroupBySumCorrect` states the result up to order, and `GroupedSumUnique`
  shows that every order has the same rows.
- Dynamic typing and NULLs are not modelled, except for `Deceased Date`:
  count columns and ids are integers, and NULL counts and NULL ids are
  outside the model. Column sums are unbounded integers, so SQLite's
  64-bit integer overflow is not modelled.
- DataFrame cells are an opaque `seq<seq<int>>`, and only the column labels
  change.
- Rename.RenameFeatureDfs requires that no prefixed name is already a column
  label. pandas would otherwise rename the clashing label as well, and the
  result then depends on the order of the loop.
- `con` is listed in the docstring of `rename_feature_dfs` but is not a
  parameter, so it has nothing to model.

# Naive Bayes attrition classifier, modelled in Dafny

The repository predicts employee attrition (or any other of its five 0/1
fields) with a Laplace-smoothed Naive Bayes classifier. It ships three copies of
one engine:

- `predictFactors.js`: the browser page with checkboxes and a radio button. It
  prints both labels' joint values and a predicted label.
- `frontend/predictFactors.js`: an earlier page that shows only the label-1
  joint value. Its lines 5-137 repeat the engine of `predictFactors.js` line
  for line (getMedianFactor 5-8, deleteIrrelevantVariables 10-12,
  convertDataToBoolean 14-34, median 36-40, load 42-72, getPXGivenY 74-93,
  getAllPXGivenY 95-105, getPY 107-117, jointProb 119-133, getProbYGivenX
  135-137). The members that model `predictFactors.js` model those lines too.
- `predictFactors.py`: the command-line program. It raises where JavaScript
  reads `undefined` or `NaN`, and it asks for a value for every field other
  than the target.

The model has seven modules:

- `Records` holds the records, the two field tables `OLD_KEYS` and `KEYS`, the
  probability pairs and the table of pairs (CPT). It also holds the
  insertion-ordered dictionaries (`Entries`, a sequence of name/value pairs)
  that JavaScript objects and Python dicts are.
- `Discretiser` holds the projection to the five raw columns, the median
  (sorting, odd and even counts, NaN for no values) and the conversion of a raw
  record into a 0/1 record.
- `Estimator` holds the smoothed prior `(#y=1 + 1)/(n + 2)`, the smoothed pair
  `[P(x=1|y=0), P(x=1|y=1)]` and the three counting loops.
- `Query` holds the record built from the checked boxes and the two printed
  forms of it.
- `Inference` holds the joint product `jointProb` and the two-label prediction
  `predictProbability`.
- `Frontend` holds what the earlier page does differently: a query of only the
  checked names, and a single label-1 value.
- `CommandLine` holds the Python copy:
  - the in-place cut of an `array` of records;
  - `KeyError`, `IndexError` and `ValueError` as `None`;
  - the typed query;
  - `main()` from records to the printed value.

Three inputs are parameters:

- The CSV file arrives as a sequence of records. The loader has already parsed
  numeric cells as integers (`Cell.Number`).
- The checked boxes are a sequence of names, in page order.
- The replies typed at the Python prompts are a function `answer` from field
  name to integer.

Probabilities are `real`.

Textbook Naive Bayes starts the label-0 product from `1 - prior`.
`predictFactors.js:240-241` passes the same `pY` to both products, and the
model follows the code. `Inference.PriorCancels` shows the consequence: the
prior then plays no part in the predicted label. With the prior at 1/2, as in
the worked four-record case (`Inference.FourRecordScenario`), the two readings
agree. `frontend/predictFactors.js:179` and `predictFactors.py:191` compute only
the label-1 product, so the question does not arise there.

The language built-ins the code relies on are written out in `Records` and
`Query`:

- `Records.Put` is `d[k] = v`. It overwrites the entry for an existing key where
  it stands, and otherwise appends a new entry (`Records.PutPresent`,
  `Records.PutAbsent`).
- `Records.Delete` is `delete d[k]` and `del d[k]`. It drops the key's entry and
  keeps the order of the rest (`Records.DeletePairs`).
- `Query.IntToString` is the decimal text JavaScript gives a number in
  `"=" + value`. Only the values 0 and 1 reach it.
- `Query.Slice` is `s.slice(k)`, which gives the empty text when `s` is shorter
  than `k` (`Query.SliceOfPrefixed`).

## Model

| member | source | states |
|---|---|---|
| `Records.Dedup` | frontend/predictFactors.js:162-164 | The checked names as object keys: each name once, at its first occurrence. It holds exactly the names of the input. |
| `Records.Without` | predictFactors.js:200 | Deleting the target key leaves exactly the other names, in order. |
| `Records.PutPresent` | predictFactors.py:178-179 | Assigning to a key that is present, in a dict with distinct keys, replaces that one entry where it stands. The key order and the other entries are unchanged. |
| `Records.PutAbsent` | predictFactors.js:196-198 | Assigning to a key that is absent appends it at the end. |
| `Records.DeletePairs` | predictFactors.js:200 | `delete` on a record of names that all have one value gives the same record without that name. |
| `Discretiser.SortAscending` | predictFactors.js:48 | The sorted copy is ascending and a permutation of the input. |
| `Discretiser.SortedUnique` | predictFactors.js:48 | Two ascending arrangements of the same multiset are equal, so the comparator's result is determined. |
| `Discretiser.SortedMedianBounds` | predictFactors.js:49-50 | The middle element, or the mean of the two central ones, lies between the least and the greatest element. |
| `Discretiser.Median` | predictFactors.js:44-51 | The result is NaN exactly for the empty list. Otherwise it lies between some element and some element of the input. |
| `Discretiser.MedianOfSorted` | predictFactors.js:48-50 | The median is the odd/even middle of every ascending arrangement of the input. |
| `Discretiser.MedianPermutation` | predictFactors.py:15 | The median depends only on the multiset of values, not on the row order. |
| `Discretiser.GetMedianFactor` | predictFactors.js:4-10 | The median of the parsed column is NaN exactly for no records. Otherwise it is bounded by values of that column. |
| `Discretiser.Project` | predictFactors.js:16 | A record cut down has exactly the five raw columns, with their values unchanged. |
| `Discretiser.DeleteIrrelevantVariables` | predictFactors.js:12-17 | One record out per record in, in order. Each has exactly the five raw columns, with values copied from its input record. |
| `Discretiser.ProjectKeepsColumn` | predictFactors.js:74-78 | The cut keeps a median column numeric, with the same median as the uncut records. |
| `Discretiser.BooleanRow` | predictFactors.js:23-41 | Each binarised field is present exactly when its raw column is. Female is 1 iff Gender is the text "Female". OverTime and Attrition are 1 iff the text is "Yes". The two numeric fields are 1 iff the value is at least the column median; NaN compares false. Nothing outside KEYS appears. |
| `Discretiser.FullRowConversion` | predictFactors.py:43-59 | A record with exactly the five raw columns becomes a record with exactly the five fields of KEYS, each 0 or 1. |
| `Discretiser.ConvertRow` | predictFactors.js:24-40 | The `for..in` loop fills the new record column by column. Whatever the visiting order, it ends with exactly `BooleanRow`. |
| `Discretiser.ConvertDataToBoolean` | predictFactors.js:19-42 | One binarised record per raw record, in order, each equal to `BooleanRow` of its record. |
| `Discretiser.Prepare` | predictFactors.js:73-83 | The preprocessing inside `load`: one 0/1 record per input record, with exactly the five fields, each 0 or 1. Each equals the projected record binarised against the whole file's two medians. |
| `Estimator.CountPermutation` | predictFactors.js:99-112 | Counting rows is independent of their order. |
| `Estimator.CountXYBound` | predictFactors.js:100-110 | The rows with x=1 and y=v are never more than the rows with y=v. |
| `Estimator.Prior` | predictFactors.js:146 | The smoothed prior lies strictly between 0 and 1 for every data set, including the empty one and a constant target. |
| `Estimator.Likelihood` | predictFactors.js:114 | Both smoothed conditional probabilities lie strictly between 0 and 1. |
| `Estimator.OrderIndependent` | predictFactors.js:89-147 | The prior and every pair depend only on the multiset of records. |
| `Estimator.Table` | predictFactors.js:123-131 | The table has one proper pair per column of the first record other than the target, and no pairs for no records. |
| `Estimator.GetPXGivenY` | predictFactors.js:89-115 | The four counters give the smoothed pair of the counting specification, which is proper. |
| `Estimator.GetAllPXGivenY` | predictFactors.js:117-132 | The table has one pair per column of the first record other than the target, and none for no records. Each pair is `Likelihood` and proper, so the result is exactly `Table`. |
| `Estimator.GetPY` | predictFactors.js:134-147 | The loop gives the smoothed prior, strictly inside (0, 1). |
| `Query.XValsShape` | predictFactors.js:184-203 | The query record has distinct names: exactly the checked names and the KEYS fields, minus the target. A name holds 1 exactly when it was checked. |
| `Query.MarkChecked` | predictFactors.js:191-193 | The checkbox loop gives each checked name once, with the value 1, in first-checked order. |
| `Query.FillStep` | predictFactors.js:195-199 | One step of the KEYS loop leaves a field that is present alone and appends a missing one at 0. |
| `Query.DeleteTarget` | predictFactors.js:200 | Deleting the target from the filled record gives the query record. |
| `Query.GetUserXVals` | predictFactors.js:184-203 | The method computes the query record: distinct names, the checked names and the other fields minus the target, 1 exactly at the checked names. |
| `Query.PrefixedJoin` | predictFactors.js:209-212 | Prepending ", " to every item gives ", " followed by the items joined by ", ". |
| `Query.SliceOfPrefixed` | predictFactors.js:214 | `slice(2)` of that text is the join. It is empty for no items. |
| `Query.GetUserRowOutput` | predictFactors.js:205-215 | The text is the `key=value` items, in record order, joined by ", ". |
| `Query.GetUserRowWords` | predictFactors.js:217-228 | The text is the `key is true` items (value 1) or `key is false` items (any other value), in record order, joined by ", ". |
| `Inference.ProductBounds` | predictFactors.js:155-163 | With every table entry strictly inside (0, 1), the product of factors lies in (0, 1]. It is below 1 as soon as there is one field. |
| `Inference.JointBounds` | predictFactors.js:149-166 | The joint value starting from a positive pY lies in (0, pY]. |
| `Inference.JointProb` | predictFactors.js:149-166 | The loop fails, by a throwing table read, exactly when some query name has no table entry. Otherwise it returns pY times the product of `p` for value 1 and `1 - p` otherwise, taking `p` at the label's index of the pair. |
| `Inference.FullQueryCovered` | predictFactors.js:195-200 | When every checked name is a field and the table has all fields but the target, every query name has a table entry. |
| `Inference.PredictProbability` | predictFactors.js:230-251 | The prediction fails exactly when the query has a name without a table entry. It cannot fail when the checked names are fields and the table covers the other fields. Both values are the joint values for labels 1 and 0 from the same pY. The label is true iff `pOne > pZero`, so a tie predicts false. The two printed texts are the joins of the query's items. |
| `Inference.PriorCancels` | predictFactors.js:240-249 | Both products start from the same positive pY, so the predicted label does not depend on the prior. |
| `Inference.ScenarioEstimates` | predictFactors.js:89-147 | For the worked four-record case with target Attrition, the prior is 1/2. The table has exactly Female and OverTime, with pairs [1/4, 3/4] and [1/2, 1/2]. |
| `Inference.FourRecordScenario` | predictFactors.js:149-174 | Against those estimates, the query Female=1, OverTime=1 gives 3/16 for label 1 against 1/16 for label 0, so label 1 wins. |
| `Frontend.CheckedProduct` | frontend/predictFactors.js:119-133 | For a record that holds 1 at each checked name, the product is that of each name's `P(x=1 given y=1)`. |
| `Frontend.GivenOneBounds` | frontend/predictFactors.js:119-133 | That product lies in (0, 1] when every table entry is proper. |
| `Frontend.CheckedCovered` | frontend/predictFactors.js:125 | The checkbox record has a table entry for every name exactly when every checked name has one. |
| `Frontend.PredictAttrition` | frontend/predictFactors.js:176-185 | The earlier page fails exactly when a checked name has no table entry. Otherwise it shows pY times the product, over the names in first-checked order, of `P(x=1 given y=1)`. |
| `Frontend.AttritionBounds` | frontend/predictFactors.js:176-185 | The value shown lies in (0, pY]. |
| `CommandLine.DeleteIrrelevantVariables` | predictFactors.py:27-35 | The in-place loop succeeds iff every record has the five raw columns. It then leaves each projected. On a KeyError the records before the first bad one are projected and the rest are untouched. |
| `CommandLine.ParsedColumn` | predictFactors.py:11-13 | The parsing loop fails, by KeyError or ValueError, exactly when some record lacks the column or holds text there. Otherwise it gives the column of integers in record order. |
| `CommandLine.GetMedianIncome` | predictFactors.py:7-15 | It succeeds exactly when every income parses, and gives the median of the column. |
| `CommandLine.GetMedianSatisfaction` | predictFactors.py:17-25 | It succeeds exactly when every rating parses, and gives the median of the column. |
| `CommandLine.CutKeepsColumn` | predictFactors.py:74-79 | Cutting the records down keeps each median column: it is numeric iff it was, and has the same median. |
| `CommandLine.LoadedShape` | predictFactors.py:82-85 | Every loaded record has exactly the five binarised fields, each 0 or 1, and there is at least one record. |
| `CommandLine.MediansAndConvert` | predictFactors.py:77-82 | It succeeds exactly when both median columns parse, and gives the records binarised against their medians. |
| `CommandLine.CutDown` | predictFactors.py:74 | It succeeds exactly when every record has the five columns, and gives the projected records. |
| `CommandLine.Load` | predictFactors.py:63-85 | `load` succeeds exactly when every record has the five columns, both median columns parse and there is a sixth record to print. It then gives the projected records binarised against the file's medians. |
| `CommandLine.GetPXGivenY` | predictFactors.py:87-107 | The loop raises exactly when some record lacks either column. Otherwise it gives the smoothed `Likelihood` pair, which is proper. |
| `CommandLine.GetAllPXGivenY` | predictFactors.py:109-121 | No records raise IndexError. A column that some record lacks, or a missing target, raises KeyError. Otherwise the result is the table. |
| `CommandLine.GetPY` | predictFactors.py:123-132 | It raises exactly when some record lacks the target. Otherwise it gives the smoothed prior, strictly inside (0, 1). |
| `CommandLine.Answers` | predictFactors.py:178-179 | The query record has one entry per asked name, in order, with those names. |
| `CommandLine.GetUserInputs` | predictFactors.py:170-181 | It raises exactly when the target is not a field. Otherwise each other field is asked once, in KEYS order, and holds its reply. |
| `CommandLine.AnswersShape` | predictFactors.py:175-176 | The typed query has each field but the target exactly once, and nothing else. |
| `CommandLine.AnswersCovered` | predictFactors.py:139-144 | A table with a pair for every field but the target covers the typed query. |
| `CommandLine.PredictAttrition` | predictFactors.py:183-191 | It fails exactly when the target is not a field or the table misses a field other than the target. Otherwise it gives the label-1 joint value of the typed query. |
| `CommandLine.ShapedEstimable` | predictFactors.py:109-132 | On loaded records the estimators raise exactly when the target is not among the five fields. The table then has a pair for each of the other four. |
| `CommandLine.Estimate` | predictFactors.py:197-205 | On loaded records, estimating and predicting succeed exactly when the target is a field. The value is the label-1 joint value, with the prior and table estimated from those records. |
| `CommandLine.Run` | predictFactors.py:193-205 | `main()` prints a value exactly when the file loads and the target is one of the five fields. That value is the label-1 joint value for the loaded records and the typed replies. |

## Left out

- Reading the CSV file, `fetch`, and `csv.DictReader`: the records are an input. The HTTP-failure path and the `catch` that makes the browser `load` return `undefined` are not modelled.
- The DOM: the checkbox and radio-button queries arrive as a sequence of names. Page writes, `console.log`, `print` and the handler that hides the chosen target's checkbox are not modelled.
- `getUserYVal`, `get_user_y_val` and the browser's throw for a missing target: the target is a parameter.
- The prompts of `get_user_x_vals`: the reply is a function of the field name. `int()` raising ValueError on a typed reply is not modelled.
- The readline `getUserXVals(xVal)` in `frontend/predictFactors.js` is not modelled. A later declaration of the same name replaces it, and it is never called.
- Floating point: probabilities and medians are exact reals, so rounding, and JavaScript's formatting of a float in the page text, are not modelled.
- `predictProbability` ends with `return p` on a variable that does not exist. That throws a ReferenceError after all the page writes, and the caller logs it. The model returns the prediction it displays.
- Browser `deleteIrrelevantVariables` on a record without one of the five columns stores `undefined` there. The model requires the five columns in the browser copy; the Python copy's KeyError is modelled.
- Browser `parseInt` on text that is not a number gives NaN, and sorting with NaN is implementation-defined. The browser model requires the median columns to hold parsed integers; the Python ValueError is modelled.
- Browser `convertDataToBoolean` sends any column outside the five to the Attrition branch. The model, like the Python `match`, ignores such a column. After the projection no such column remains, so the two agree on every loaded record.
- JavaScript orders integer-like object keys before other keys. No field or checkbox name is integer-like, so insertion order is modelled.
- The scripts under `old/` are not part of this model.

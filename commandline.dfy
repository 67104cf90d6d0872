/** The command-line copy of the classifier. It shares the estimators and
    the joint product with the browser copies but differs in three ways: a
    missing column or an unparsable number raises instead of reading as
    undefined or NaN, the raw records are cut down in place, and the query
    asks for a value for every field other than the target. */
module CommandLine {
  import opened Records
  import Discretiser
  import Estimator
  import Inference

  // ---------------------------------------------------------------------
  // Loading

  /** `delete_irrelevant_variables(data)`: each record of the list replaced,
      in place and in order, by its five raw columns. A record lacking one of
      them raises KeyError there: the records before it are already cut
      down, it and the later ones are untouched. */
  method DeleteIrrelevantVariables(data: array<RawRow>) returns (ok: bool)
    modifies data
    ensures ok <==> forall i :: 0 <= i < data.Length ==> Discretiser.HasOldKeys(old(data[i]))
    ensures ok ==> forall i :: 0 <= i < data.Length ==> data[i] == Discretiser.Project(old(data[i]))
    ensures !ok ==> exists j :: (0 <= j < data.Length && !Discretiser.HasOldKeys(old(data[j])) &&
      (forall i :: 0 <= i < j ==> Discretiser.HasOldKeys(old(data[i])) && data[i] == Discretiser.Project(old(data[i]))) &&
      (forall i :: j <= i < data.Length ==> data[i] == old(data[i])))
  {
    for i := 0 to data.Length
      invariant forall j :: 0 <= j < i ==> Discretiser.HasOldKeys(old(data[j])) && data[j] == Discretiser.Project(old(data[j]))
      invariant forall j :: i <= j < data.Length ==> data[j] == old(data[j])
    {
      var row := data[i];
      if !Discretiser.HasOldKeys(row) {
        return false;
      }
      data[i] := Discretiser.Project(row);
    }
    return true;
  }

  /** `int(row[column])` for each record in order. A missing column raises
      KeyError and a text that is not an integer raises ValueError: both
      give None. */
  method ParsedColumn(data: seq<RawRow>, column: string) returns (r: Option<seq<int>>)
    ensures r.Some? <==> Discretiser.NumericColumn(data, column)
    ensures r.Some? ==> r.value == Discretiser.Column(data, column)
  {
    var values := [];
    for i := 0 to |data|
      invariant Discretiser.NumericColumn(data[..i], column)
      invariant values == Discretiser.Column(data[..i], column)
    {
      if column !in data[i] || data[i][column].Text? {
        return None;
      }
      assert data[..i + 1][..i] == data[..i];
      values := values + [data[i][column].value];
    }
    assert data[..|data|] == data;
    return Some(values);
  }

  /** `get_median_income(data)`: `np.median` of the parsed incomes, NaN for
      no records. */
  method GetMedianIncome(data: seq<RawRow>) returns (m: Option<Number>)
    ensures m.Some? <==> Discretiser.NumericColumn(data, "MonthlyIncome")
    ensures m.Some? ==> m.value == Discretiser.GetMedianFactor(data, "MonthlyIncome")
  {
    var incomes := ParsedColumn(data, "MonthlyIncome");
    if incomes.None? {
      return None;
    }
    return Some(Discretiser.Median(incomes.value));
  }

  /** `get_median_satisfaction(data)`: `np.median` of the parsed ratings. */
  method GetMedianSatisfaction(data: seq<RawRow>) returns (m: Option<Number>)
    ensures m.Some? <==> Discretiser.NumericColumn(data, "JobSatisfaction")
    ensures m.Some? ==> m.value == Discretiser.GetMedianFactor(data, "JobSatisfaction")
  {
    var satisfactions := ParsedColumn(data, "JobSatisfaction");
    if satisfactions.None? {
      return None;
    }
    return Some(Discretiser.Median(satisfactions.value));
  }

  /** What `load` accepts: every record has the five raw columns, the two
      median columns hold integers, and there are at least six records
      (the sixth is printed, with no guard). */
  predicate Loadable(raw: seq<RawRow>) {
    && (forall i :: 0 <= i < |raw| ==> Discretiser.HasOldKeys(raw[i]))
    && |raw| > 5
    && Discretiser.NumericColumn(raw, "MonthlyIncome")
    && Discretiser.NumericColumn(raw, "JobSatisfaction")
  }

  /** Both median columns hold integers in every record. */
  predicate MedianColumns(rows: seq<RawRow>) {
    Discretiser.NumericColumn(rows, "MonthlyIncome") && Discretiser.NumericColumn(rows, "JobSatisfaction")
  }

  /** The records binarised against their own two medians. */
  function Binarised(rows: seq<RawRow>): (data: seq<Row>)
    requires MedianColumns(rows)
    ensures |data| == |rows|
  {
    var mi := Discretiser.GetMedianFactor(rows, "MonthlyIncome");
    var ms := Discretiser.GetMedianFactor(rows, "JobSatisfaction");
    seq(|rows|, i requires 0 <= i < |rows| && MedianColumns(rows) => Discretiser.BooleanRow(rows[i], mi, ms))
  }

  /** Cutting the records down keeps the median columns and their values. */
  lemma CutKeepsColumn(raw: seq<RawRow>, column: string)
    requires forall i :: 0 <= i < |raw| ==> Discretiser.HasOldKeys(raw[i])
    requires column == "MonthlyIncome" || column == "JobSatisfaction"
    ensures Discretiser.NumericColumn(Discretiser.DeleteIrrelevantVariables(raw), column) <==> Discretiser.NumericColumn(raw, column)
    ensures Discretiser.NumericColumn(raw, column) ==>
      Discretiser.GetMedianFactor(Discretiser.DeleteIrrelevantVariables(raw), column) == Discretiser.GetMedianFactor(raw, column)
  {
    var cut := Discretiser.DeleteIrrelevantVariables(raw);
    assert forall i :: 0 <= i < |raw| ==> column in cut[i] && cut[i][column] == raw[i][column];
    if Discretiser.NumericColumn(raw, column) {
      Discretiser.ProjectKeepsColumn(raw, column);
    }
  }

  /** The binarised records `load` returns for a loadable file: each raw
      record cut down to its five columns and binarised against the medians
      of the whole file. */
  function Loaded(raw: seq<RawRow>): (data: seq<Row>)
    requires Loadable(raw)
    ensures |data| == |raw|
  {
    CutKeepsColumn(raw, "MonthlyIncome");
    CutKeepsColumn(raw, "JobSatisfaction");
    Binarised(Discretiser.DeleteIrrelevantVariables(raw))
  }

  /** Some records, each with exactly the five binarised fields. */
  predicate Shaped(data: seq<Row>) {
    data != [] && forall i :: 0 <= i < |data| ==> data[i].Keys == set k | k in KEYS
  }

  /** Every loaded record has exactly the five binarised fields, each 0 or 1. */
  lemma LoadedShape(raw: seq<RawRow>)
    requires Loadable(raw)
    ensures Shaped(Loaded(raw))
    ensures forall i, k :: 0 <= i < |raw| && k in Loaded(raw)[i] ==> Loaded(raw)[i][k] in {0, 1}
  {
    var rows := Discretiser.DeleteIrrelevantVariables(raw);
    CutKeepsColumn(raw, "MonthlyIncome");
    CutKeepsColumn(raw, "JobSatisfaction");
    var mi := Discretiser.GetMedianFactor(rows, "MonthlyIncome");
    var ms := Discretiser.GetMedianFactor(rows, "JobSatisfaction");
    forall i | 0 <= i < |raw|
      ensures Loaded(raw)[i].Keys == set k | k in KEYS
      ensures forall k :: k in Loaded(raw)[i] ==> Loaded(raw)[i][k] in {0, 1}
    {
      Discretiser.FullRowConversion(rows[i], mi, ms);
    }
  }

  /** The part of `load` after the cut: the median income, the median
      rating, then the binarised records. */
  method MediansAndConvert(rows: seq<RawRow>) returns (r: Option<seq<Row>>)
    ensures r.Some? <==> MedianColumns(rows)
    ensures r.Some? ==> r.value == Binarised(rows)
  {
    var medianIncome := GetMedianIncome(rows);
    if medianIncome.None? {
      return None;
    }
    var medianSatisfaction := GetMedianSatisfaction(rows);
    if medianSatisfaction.None? {
      return None;
    }
    var booleanData := Discretiser.ConvertDataToBoolean(rows, medianIncome.value, medianSatisfaction.value);
    assert booleanData == Binarised(rows);
    return Some(booleanData);
  }

  /** The list of records cut down in place by `delete_irrelevant_variables`. */
  method CutDown(raw: seq<RawRow>) returns (r: Option<seq<RawRow>>)
    ensures r.Some? <==> forall i :: 0 <= i < |raw| ==> Discretiser.HasOldKeys(raw[i])
    ensures r.Some? ==> r.value == Discretiser.DeleteIrrelevantVariables(raw)
  {
    var data := new RawRow[|raw|](i requires 0 <= i < |raw| => raw[i]);
    assert data[..] == raw;
    var ok := DeleteIrrelevantVariables(data);
    if !ok {
      ghost var j :| 0 <= j < data.Length && !Discretiser.HasOldKeys(raw[j]);
      return None;
    }
    assert data[..] == Discretiser.DeleteIrrelevantVariables(raw);
    return Some(data[..]);
  }

  /** `load(filename)` after the CSV is read into records: cut down in
      place, print the sixth record, take the two medians, binarise. */
  method Load(raw: seq<RawRow>) returns (r: Option<seq<Row>>)
    ensures r.Some? <==> Loadable(raw)
    ensures r.Some? ==> r.value == Loaded(raw)
  {
    var rows := CutDown(raw);
    if rows.None? {
      return None;
    }
    if |rows.value| <= 5 {
      return None;
    }
    CutKeepsColumn(raw, "MonthlyIncome");
    CutKeepsColumn(raw, "JobSatisfaction");
    r := MediansAndConvert(rows.value);
  }

  // ---------------------------------------------------------------------
  // Estimators that raise on a missing column

  /** Every record has the column. */
  predicate HasColumn(data: seq<Row>, column: string) {
    forall i :: 0 <= i < |data| ==> column in data[i]
  }

  /** `get_p_x_given_y(x_column, y_column, data)`: the counts of the browser
      copy, but a record lacking either column raises KeyError. */
  method GetPXGivenY(xColumn: string, yColumn: string, data: seq<Row>) returns (r: Option<Pair>)
    ensures r.Some? <==> HasColumn(data, xColumn) && HasColumn(data, yColumn)
    ensures r.Some? ==> r.value == Estimator.Likelihood(data, xColumn, yColumn) && r.value.Proper()
  {
    var xOneYOne, xOneYZero, yOne, yZero := 0, 0, 0, 0;
    for i := 0 to |data|
      invariant HasColumn(data[..i], xColumn) && HasColumn(data[..i], yColumn)
      invariant xOneYOne == Estimator.CountXY(data[..i], xColumn, yColumn, 1)
      invariant xOneYZero == Estimator.CountXY(data[..i], xColumn, yColumn, 0)
      invariant yOne == Estimator.CountY(data[..i], yColumn, 1)
      invariant yZero == Estimator.CountY(data[..i], yColumn, 0)
    {
      var entry := data[i];
      if xColumn !in entry || yColumn !in entry {
        return None;
      }
      assert data[..i + 1] == data[..i] + [entry];
      assert (entry[xColumn] == 1) == Is(entry, xColumn, 1) && (entry[yColumn] == 1) == Is(entry, yColumn, 1);
      assert (entry[yColumn] == 0) == Is(entry, yColumn, 0);
      if entry[xColumn] == 1 && entry[yColumn] == 1 {
        xOneYOne := xOneYOne + 1;
      }
      if entry[xColumn] == 1 && entry[yColumn] == 0 {
        xOneYZero := xOneYZero + 1;
      }
      if entry[yColumn] == 1 {
        yOne := yOne + 1;
      }
      if entry[yColumn] == 0 {
        yZero := yZero + 1;
      }
    }
    assert data[..|data|] == data;
    return Some(Pair((xOneYZero + 1) as real / (yZero + 2) as real, (xOneYOne + 1) as real / (yOne + 2) as real));
  }

  /** `get_all_p_x_given_y(y_column, data)`: no records raise IndexError on
      `data[0]`; a column of the first record that some record lacks, or a
      target some record lacks, raises KeyError. */
  method GetAllPXGivenY(yColumn: string, data: seq<Row>) returns (r: Option<Cpt>)
    ensures r.Some? <==> (data != [] &&
      forall x :: x in data[0] && x != yColumn ==> HasColumn(data, x) && HasColumn(data, yColumn))
    ensures r.Some? ==> data != [] && r.value == Estimator.Table(data, yColumn)
  {
    if data == [] {
      return None;
    }
    var cpt := map[];
    var todo := data[0].Keys;
    while todo != {}
      invariant todo <= data[0].Keys
      invariant cpt.Keys == (data[0].Keys - todo) - {yColumn}
      invariant forall x :: x in cpt ==> cpt[x] == Estimator.Likelihood(data, x, yColumn)
      invariant forall x :: x in cpt ==> HasColumn(data, x) && HasColumn(data, yColumn)
      decreases todo
    {
      var xVal :| xVal in todo;
      if xVal != yColumn {
        var pr := GetPXGivenY(xVal, yColumn, data);
        if pr.None? {
          return None;
        }
        cpt := cpt[xVal := pr.value];
      }
      todo := todo - {xVal};
    }
    forall x | x in data[0] && x != yColumn ensures HasColumn(data, x) && HasColumn(data, yColumn) {
      assert x in cpt;
    }
    return Some(cpt);
  }

  /** `get_p_y(y_column, data)`: a record lacking the target raises KeyError. */
  method GetPY(yColumn: string, data: seq<Row>) returns (r: Option<real>)
    ensures r.Some? <==> HasColumn(data, yColumn)
    ensures r.Some? ==> r.value == Estimator.Prior(data, yColumn) && 0.0 < r.value < 1.0
  {
    var yOne := 0;
    for i := 0 to |data|
      invariant HasColumn(data[..i], yColumn)
      invariant yOne == Estimator.CountY(data[..i], yColumn, 1)
    {
      if yColumn !in data[i] {
        return None;
      }
      assert data[..i + 1][..i] == data[..i];
      if data[i][yColumn] == 1 {
        yOne := yOne + 1;
      }
    }
    assert data[..|data|] == data;
    return Some((yOne + 1) as real / (|data| + 2) as real);
  }

  // ---------------------------------------------------------------------
  // The query

  /** Each name paired with the reply to its prompt. */
  function Answers(names: seq<string>, answer: string -> int): (e: Entries)
    ensures |e| == |names|
    ensures Keys(e) == names
  {
    seq(|names|, i requires 0 <= i < |names| => (names[i], answer(names[i])))
  }

  /** `get_user_inputs(y_column)`. Each field of KEYS but the target is asked
      for exactly once, in KEYS order; `answer` stands for the reply the
      user types at that field's prompt. A target that is not a field makes
      `del user_row[y_column]` raise KeyError. */
  method GetUserInputs(yColumn: string, answer: string -> int) returns (r: Option<Entries>)
    ensures r.Some? <==> yColumn in KEYS
    ensures r.Some? ==> r.value == Answers(Without(KEYS, yColumn), answer)
  {
    var userRow := Pairs(KEYS, -1);
    if yColumn !in KEYS {
      return None;
    }
    DeletePairs(KEYS, -1, yColumn);
    userRow := Delete(userRow, yColumn);
    ghost var names := Without(KEYS, yColumn);
    assert Distinct(KEYS);
    WithoutElements(KEYS, yColumn);
    for i := 0 to |userRow|
      invariant |userRow| == |names|
      invariant forall j :: 0 <= j < |names| ==> userRow[j] == (names[j], if j < i then answer(names[j]) else -1)
    {
      var key := userRow[i].0;
      assert Keys(userRow) == names;
      PutPresent(userRow, i, answer(key));
      userRow := Put(userRow, key, answer(key));
    }
    return Some(userRow);
  }

  /** The query has a value for each field but the target and for nothing
      else, each exactly once. */
  lemma AnswersShape(yColumn: string, answer: string -> int)
    ensures Distinct(Keys(Answers(Without(KEYS, yColumn), answer)))
    ensures forall k :: k in Keys(Answers(Without(KEYS, yColumn), answer)) <==> k in KEYS && k != yColumn
  {
    assert Distinct(KEYS);
    WithoutElements(KEYS, yColumn);
  }

  /** A table with a pair for every field but the target covers the query. */
  lemma AnswersCovered(yColumn: string, answer: string -> int, cpt: Cpt)
    requires forall k :: k in KEYS && k != yColumn ==> k in cpt
    ensures Inference.Covered(Answers(Without(KEYS, yColumn), answer), cpt)
  {
    var q := Answers(Without(KEYS, yColumn), answer);
    forall i | 0 <= i < |q| ensures q[i].0 in cpt {
      assert q[i].0 == Without(KEYS, yColumn)[i] && Without(KEYS, yColumn)[i] in Without(KEYS, yColumn);
    }
  }

  /** `predict_attrition(all_p_x_given_y, p_y, data, y_column)`: the joint
      value of the label 1 for the typed query. A field without a table
      entry raises KeyError. */
  method PredictAttrition(allPXGivenY: Cpt, pY: real, yColumn: string, answer: string -> int)
    returns (r: Option<real>)
    ensures r.Some? <==> yColumn in KEYS && forall k :: k in KEYS && k != yColumn ==> k in allPXGivenY
    ensures r.Some? ==> Inference.Covered(Answers(Without(KEYS, yColumn), answer), allPXGivenY)
    ensures r.Some? ==> r.value == Inference.Joint(Answers(Without(KEYS, yColumn), answer), 1, allPXGivenY, pY)
  {
    var userRow := GetUserInputs(yColumn, answer);
    if userRow.None? {
      return None;
    }
    r := Inference.JointProb(userRow.value, 1, allPXGivenY, pY);
    if r.None? {
      ghost var i :| 0 <= i < |userRow.value| && userRow.value[i].0 !in allPXGivenY;
      assert Keys(userRow.value)[i] in Without(KEYS, yColumn);
    }
  }

  /** On such records the estimators raise exactly when the target is not
      one of the five fields; otherwise the table has a pair for each of the
      other four. */
  lemma ShapedEstimable(data: seq<Row>, yColumn: string)
    requires Shaped(data)
    ensures (forall x :: x in data[0] && x != yColumn ==>
               HasColumn(data, x) && HasColumn(data, yColumn)) <==> yColumn in KEYS
    ensures HasColumn(data, yColumn) <==> yColumn in KEYS
    ensures Estimator.Table(data, yColumn).Keys == (set k | k in KEYS) - {yColumn}
  {
    if yColumn in KEYS {
      forall x | x in data[0] && x != yColumn ensures HasColumn(data, x) && HasColumn(data, yColumn) {
        assert x in KEYS;
      }
    } else {
      assert "Female" in data[0] && "Female" != yColumn;
      assert yColumn !in data[0];
    }
  }

  /** The label-1 joint value for such records, a target among the five
      fields and the typed replies, with the prior and the table estimated
      from the records. */
  function PredictedFrom(data: seq<Row>, yColumn: string, answer: string -> int): real
    requires Shaped(data) && yColumn in KEYS
  {
    ShapedEstimable(data, yColumn);
    var cpt := Estimator.Table(data, yColumn);
    AnswersCovered(yColumn, answer, cpt);
    Inference.Joint(Answers(Without(KEYS, yColumn), answer), 1, cpt, Estimator.Prior(data, yColumn))
  }

  /** What `main()` prints for a loadable file. */
  function Predicted(raw: seq<RawRow>, yColumn: string, answer: string -> int): real
    requires Loadable(raw) && yColumn in KEYS
  {
    LoadedShape(raw);
    PredictedFrom(Loaded(raw), yColumn, answer)
  }

  /** The estimating and predicting half of `main()`, on loaded records. */
  method Estimate(data: seq<Row>, yColumn: string, answer: string -> int) returns (r: Option<real>)
    requires Shaped(data)
    ensures r.Some? <==> yColumn in KEYS
    ensures r.Some? ==> yColumn in KEYS && r.value == PredictedFrom(data, yColumn, answer)
  {
    ShapedEstimable(data, yColumn);
    var allPXGivenY := GetAllPXGivenY(yColumn, data);
    if allPXGivenY.None? {
      return None;
    }
    var pY := GetPY(yColumn, data);
    r := PredictAttrition(allPXGivenY.value, pY.value, yColumn, answer);
  }

  /** `main()` without its prompts and prints: load, estimate for the typed
      target, predict. It succeeds exactly when the file loads and the
      target is one of the five fields. */
  method Run(raw: seq<RawRow>, yColumn: string, answer: string -> int) returns (r: Option<real>)
    ensures r.Some? <==> Loadable(raw) && yColumn in KEYS
    ensures r.Some? ==> r.value == Predicted(raw, yColumn, answer)
  {
    var training := Load(raw);
    if training.None? {
      return None;
    }
    LoadedShape(raw);
    r := Estimate(training.value, yColumn, answer);
  }
}

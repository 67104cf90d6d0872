/** Inference: the unnormalised joint product for one label and the
    prediction that compares the two labels' products. */
module Inference {
  import opened Records
  import Query
  import Estimator

  /** The factor of one query field: `p` for the value 1, `1 - p` for any
      other value. */
  function Factor(v: int, p: real): real {
    if v == 1 then p else 1.0 - p
  }

  /** Every query field has a CPT entry. */
  predicate Covered(q: Entries, cpt: Cpt) {
    forall i :: 0 <= i < |q| ==> q[i].0 in cpt
  }

  /** `Π_f (q[f] === 1 ? cpt[f][y] : 1 - cpt[f][y])` over the query, in order. */
  function Product(q: Entries, y: Label, cpt: Cpt): real
    requires Covered(q, cpt)
  {
    if q == [] then 1.0
    else
      var last := q[|q| - 1];
      Product(q[..|q| - 1], y, cpt) * Factor(last.1, cpt[last.0].At(y))
  }

  /** The joint value of one label: the product scaled by the starting value. */
  function Joint(q: Entries, y: Label, cpt: Cpt, pY: real): real
    requires Covered(q, cpt)
  {
    pY * Product(q, y, cpt)
  }

  lemma MulBelow(a: real, b: real)
    requires 0.0 < a <= 1.0 && 0.0 < b < 1.0
    ensures 0.0 < a * b < a
  {
  }

  /** With every CPT entry strictly inside (0,1), the product is in (0,1],
      and below 1 as soon as there is one field. */
  lemma {:induction false} ProductBounds(q: Entries, y: Label, cpt: Cpt)
    requires Covered(q, cpt)
    requires forall f :: f in cpt ==> cpt[f].Proper()
    ensures 0.0 < Product(q, y, cpt) <= 1.0
    ensures q != [] ==> Product(q, y, cpt) < 1.0
  {
    if q != [] {
      var last := q[|q| - 1];
      ProductBounds(q[..|q| - 1], y, cpt);
      var init, f := Product(q[..|q| - 1], y, cpt), Factor(last.1, cpt[last.0].At(y));
      assert cpt[last.0].Proper();
      assert Product(q, y, cpt) == init * f;
      MulBelow(init, f);
    }
  }

  /** The joint value starting from pY lies in (0, pY]. */
  lemma JointBounds(q: Entries, y: Label, cpt: Cpt, pY: real)
    requires Covered(q, cpt)
    requires forall f :: f in cpt ==> cpt[f].Proper()
    requires 0.0 < pY
    ensures 0.0 < Joint(q, y, cpt, pY) <= pY
  {
    ProductBounds(q, y, cpt);
    var p := Product(q, y, cpt);
    assert pY * p <= pY * 1.0;
  }

  /** `jointProb(xRow, yColumn, allPXGivenY, pY)` (and `getProbYGivenX`,
      which only forwards to it). The label is the index into each pair. A
      query field without a CPT entry makes the read `allPXGivenY[xVal][y]`
      throw, modelled as None. The test `xVal !== yColumn` compares a name
      with a number and never holds back a field, so it does not appear. */
  method JointProb(xRow: Entries, y: Label, allPXGivenY: Cpt, pY: real) returns (r: Option<real>)
    ensures r.Some? <==> Covered(xRow, allPXGivenY)
    ensures r.Some? ==> r.value == Joint(xRow, y, allPXGivenY, pY)
  {
    var probYGivenX := pY;
    for i := 0 to |xRow|
      invariant Covered(xRow[..i], allPXGivenY)
      invariant probYGivenX == pY * Product(xRow[..i], y, allPXGivenY)
    {
      var (xVal, v) := xRow[i];
      if xVal !in allPXGivenY {
        return None;
      }
      assert xRow[..i + 1][..i] == xRow[..i];
      ghost var before := Product(xRow[..i], y, allPXGivenY);
      var p := allPXGivenY[xVal].At(y);
      if v == 1 {
        probYGivenX := probYGivenX * p;
      } else {
        probYGivenX := probYGivenX * (1.0 - p);
      }
      assert probYGivenX == pY * (before * Factor(v, p));
    }
    assert xRow[..|xRow|] == xRow;
    return Some(probYGivenX);
  }

  /** When every checked name is a field and the table has every field but
      the target, the query record has a table entry for each of its names. */
  lemma FullQueryCovered(checked: seq<string>, yColumn: string, cpt: Cpt)
    requires forall c :: c in checked ==> c in KEYS
    requires forall k :: k in KEYS && k != yColumn ==> k in cpt
    ensures Covered(Query.XVals(checked, yColumn), cpt)
  {
    var q := Query.XVals(checked, yColumn);
    Query.XValsShape(checked, yColumn);
    forall i | 0 <= i < |q| ensures q[i].0 in cpt {
      assert q[i].0 == Keys(q)[i];
    }
  }

  /** What the browser's prediction shows. `pOne` and `pZero` are joint
      values, not normalised: they need not add up to 1. */
  datatype Prediction = Prediction(pOne: real, pZero: real, predicted: bool, rowOutput: string, rowWords: string)

  /** `predictProbability(allPXGivenY, pY, data, yColumn)` without the page
      writes: both labels' products start from the same `pY`, and the label
      is true only when `pOne > pZero`, so a tie predicts false. */
  method PredictProbability(allPXGivenY: Cpt, pY: real, yColumn: string, checked: seq<string>)
    returns (r: Option<Prediction>)
    ensures r.Some? <==> Covered(Query.XVals(checked, yColumn), allPXGivenY)
    ensures ((forall c :: c in checked ==> c in KEYS) &&
             (forall k :: k in KEYS && k != yColumn ==> k in allPXGivenY)) ==> r.Some?
    ensures r.Some? ==>
      && r.value.pOne == Joint(Query.XVals(checked, yColumn), 1, allPXGivenY, pY)
      && r.value.pZero == Joint(Query.XVals(checked, yColumn), 0, allPXGivenY, pY)
      && r.value.predicted == (r.value.pOne > r.value.pZero)
      && r.value.rowOutput == Query.Join(Query.OutputItems(Query.XVals(checked, yColumn)))
      && r.value.rowWords == Query.Join(Query.WordItems(Query.XVals(checked, yColumn)))
  {
    var userRow := Query.GetUserXVals(checked, yColumn);
    if (forall c :: c in checked ==> c in KEYS) && (forall k :: k in KEYS && k != yColumn ==> k in allPXGivenY) {
      FullQueryCovered(checked, yColumn, allPXGivenY);
    }
    var userRowOutput := Query.GetUserRowOutput(userRow);
    var userRowWords := Query.GetUserRowWords(userRow);
    var pOne := JointProb(userRow, 1, allPXGivenY, pY);
    if pOne.None? {
      return None;
    }
    var pZero := JointProb(userRow, 0, allPXGivenY, pY);
    var yBool := pOne.value > pZero.value;
    r := Some(Prediction(pOne.value, pZero.value, yBool, userRowOutput, userRowWords));
  }

  /** Because both products start from the same `pY`, the prior has no say
      in the label: for any positive pY it is decided by the two products
      alone. */
  lemma PriorCancels(q: Entries, cpt: Cpt, pY: real)
    requires Covered(q, cpt)
    requires 0.0 < pY
    ensures (Joint(q, 1, cpt, pY) > Joint(q, 0, cpt, pY)) <==> (Product(q, 1, cpt) > Product(q, 0, cpt))
  {
    ScaleKeepsOrder(pY, Product(q, 1, cpt), Product(q, 0, cpt));
  }

  lemma ScaleKeepsOrder(c: real, a: real, b: real)
    requires 0.0 < c
    ensures (c * a > c * b) <==> (a > b)
  {
    if a > b {
      assert c * (a - b) > 0.0;
      assert c * a - c * b == c * (a - b);
    } else {
      assert c * (b - a) >= 0.0;
      assert c * b - c * a == c * (b - a);
    }
  }

  lemma CountOfFour(a: Row, b: Row, c: Row, d: Row)
    ensures forall p: Row -> bool :: (Estimator.Count([a, b, c, d], p) ==
      (if p(a) then 1 else 0) + (if p(b) then 1 else 0) + (if p(c) then 1 else 0) + (if p(d) then 1 else 0))
  {
    forall p: Row -> bool ensures Estimator.Count([a, b, c, d], p) ==
      (if p(a) then 1 else 0) + (if p(b) then 1 else 0) + (if p(c) then 1 else 0) + (if p(d) then 1 else 0)
    {
      assert [a, b, c, d][..3] == [a, b, c];
      assert [a, b, c][..2] == [a, b];
      assert [a, b][..1] == [a];
      assert Estimator.Count([a], p) == (if p(a) then 1 else 0) by {
        assert [a][..0] == [];
      }
      assert Estimator.Count([a, b], p) == Estimator.Count([a], p) + (if p(b) then 1 else 0);
      assert Estimator.Count([a, b, c], p) == Estimator.Count([a, b], p) + (if p(c) then 1 else 0);
    }
  }

  /** The four records of the worked case below. */
  function ScenarioRecords(): seq<Row> {
    [map["Female" := 1, "OverTime" := 0, "Attrition" := 1],
     map["Female" := 0, "OverTime" := 1, "Attrition" := 0],
     map["Female" := 1, "OverTime" := 1, "Attrition" := 1],
     map["Female" := 0, "OverTime" := 0, "Attrition" := 0]]
  }

  /** Their estimates for the target Attrition: the prior 1/2, Female's
      pair [1/4, 3/4] and OverTime's pair [1/2, 1/2]. */
  lemma ScenarioEstimates()
    ensures Estimator.Prior(ScenarioRecords(), "Attrition") == 0.5
    ensures Estimator.Table(ScenarioRecords(), "Attrition").Keys == {"Female", "OverTime"}
    ensures Estimator.Table(ScenarioRecords(), "Attrition")["Female"] == Pair(0.25, 0.75)
    ensures Estimator.Table(ScenarioRecords(), "Attrition")["OverTime"] == Pair(0.5, 0.5)
  {
    var data := ScenarioRecords();
    CountOfFour(data[0], data[1], data[2], data[3]);
    assert data == [data[0], data[1], data[2], data[3]];
    assert Estimator.CountY(data, "Attrition", 1) == 2;
    assert Estimator.CountY(data, "Attrition", 0) == 2;
    assert Estimator.CountXY(data, "Female", "Attrition", 1) == 2;
    assert Estimator.CountXY(data, "Female", "Attrition", 0) == 0;
    assert Estimator.CountXY(data, "OverTime", "Attrition", 1) == 1;
    assert Estimator.CountXY(data, "OverTime", "Attrition", 0) == 1;
    assert data[0].Keys - {"Attrition"} == {"Female", "OverTime"};
  }

  /** A worked case: the query Female = 1, OverTime = 1 against those
      estimates gives 3/16 for the label 1 and 1/16 for the label 0, so the
      label is true. */
  lemma FourRecordScenario()
    ensures var cpt := Estimator.Table(ScenarioRecords(), "Attrition");
            var q: Entries := [("Female", 1), ("OverTime", 1)];
            && Covered(q, cpt)
            && Joint(q, 1, cpt, Estimator.Prior(ScenarioRecords(), "Attrition")) == 0.1875
            && Joint(q, 0, cpt, Estimator.Prior(ScenarioRecords(), "Attrition")) == 0.0625
            && Joint(q, 1, cpt, Estimator.Prior(ScenarioRecords(), "Attrition")) >
               Joint(q, 0, cpt, Estimator.Prior(ScenarioRecords(), "Attrition"))
  {
    ScenarioEstimates();
    var cpt := Estimator.Table(ScenarioRecords(), "Attrition");
    var q: Entries := [("Female", 1), ("OverTime", 1)];
    assert q[..1] == [("Female", 1)];
    assert q[..1][..0] == [];
    assert Product(q[..1], 1, cpt) == 0.75;
    assert Product(q, 1, cpt) == 0.75 * 0.5;
    assert Product(q[..1], 0, cpt) == 0.25;
    assert Product(q, 0, cpt) == 0.25 * 0.5;
  }
}

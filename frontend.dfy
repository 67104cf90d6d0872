/** The earlier browser page: the query holds only the checked boxes, and
    the page shows the single joint value for the label 1. */
module Frontend {
  import opened Records
  import Query
  import Inference

  /** `Π_f P(f = 1 | y = 1)` over the names, in order. */
  function GivenOneProduct(names: seq<string>, cpt: Cpt): real
    requires forall n :: n in names ==> n in cpt
  {
    if names == [] then 1.0
    else GivenOneProduct(names[..|names| - 1], cpt) * cpt[names[|names| - 1]].given1
  }

  /** A record where every name holds 1 contributes exactly each name's
      `P(f = 1 | y = 1)` to the label-1 product. */
  lemma {:induction false} CheckedProduct(names: seq<string>, cpt: Cpt)
    requires forall n :: n in names ==> n in cpt
    ensures Inference.Covered(Pairs(names, 1), cpt)
    ensures Inference.Product(Pairs(names, 1), 1, cpt) == GivenOneProduct(names, cpt)
  {
    if names != [] {
      var init := names[..|names| - 1];
      assert Pairs(names, 1)[..|names| - 1] == Pairs(init, 1);
      CheckedProduct(init, cpt);
    }
  }

  /** The product over the checked names lies in (0, 1] when every table
      entry is strictly inside (0, 1). */
  lemma {:induction false} GivenOneBounds(names: seq<string>, cpt: Cpt)
    requires forall n :: n in names ==> n in cpt
    requires forall f :: f in cpt ==> cpt[f].Proper()
    ensures 0.0 < GivenOneProduct(names, cpt) <= 1.0
  {
    if names != [] {
      var init := names[..|names| - 1];
      GivenOneBounds(init, cpt);
      Inference.MulBelow(GivenOneProduct(init, cpt), cpt[names[|names| - 1]].given1);
    }
  }

  /** The checkbox record has a table entry for each of its names exactly
      when every checked name has one. */
  lemma CheckedCovered(checked: seq<string>, cpt: Cpt)
    ensures Inference.Covered(Pairs(Dedup(checked), 1), cpt) <==> forall c :: c in checked ==> c in cpt
  {
    var q := Pairs(Dedup(checked), 1);
    if !forall c :: c in checked ==> c in cpt {
      var c :| c in checked && c !in cpt;
      var i :| 0 <= i < |Dedup(checked)| && Dedup(checked)[i] == c;
      assert q[i].0 == c;
    } else {
      forall i | 0 <= i < |q| ensures q[i].0 in cpt {
        assert q[i].0 == Dedup(checked)[i] && Dedup(checked)[i] in Dedup(checked);
      }
    }
  }

  /** `predictAttrition(allPXGivenY, pY, data, yColumn)` without the page
      write. `getUserInputs` returns the checkbox record unchanged, and the
      later checkbox `getUserXVals()` is the one the page calls, so the
      query has a 1 for each checked name and nothing for the unchecked
      fields. A checked name without a table entry makes the table read
      throw. */
  method PredictAttrition(allPXGivenY: Cpt, pY: real, checked: seq<string>) returns (pAttrition: Option<real>)
    ensures pAttrition.Some? <==> forall c :: c in checked ==> c in allPXGivenY
    ensures pAttrition.Some? ==> pAttrition.value == pY * GivenOneProduct(Dedup(checked), allPXGivenY)
  {
    var userRow := Query.MarkChecked(checked);
    pAttrition := Inference.JointProb(userRow, 1, allPXGivenY, pY);
    CheckedCovered(checked, allPXGivenY);
    if pAttrition.Some? {
      CheckedProduct(Dedup(checked), allPXGivenY);
    }
  }

  /** The value shown lies in (0, pY] when the prior is positive and every
      table entry is strictly inside (0, 1). */
  lemma AttritionBounds(checked: seq<string>, cpt: Cpt, pY: real)
    requires forall c :: c in checked ==> c in cpt
    requires forall f :: f in cpt ==> cpt[f].Proper()
    requires 0.0 < pY
    ensures 0.0 < pY * GivenOneProduct(Dedup(checked), cpt) <= pY
  {
    DedupElements(checked);
    GivenOneBounds(Dedup(checked), cpt);
    var p := GivenOneProduct(Dedup(checked), cpt);
    assert pY * p <= pY * 1.0;
  }
}

/** Estimator: the Laplace-smoothed prior P(y=1) and, per predictor column,
    the pair [P(x=1 | y=0), P(x=1 | y=1)], counted from binarised records. */
module Estimator {
  import opened Records

  // ---------------------------------------------------------------------
  // Counting

  /** The number of rows satisfying p. */
  function Count(data: seq<Row>, p: Row -> bool): (n: nat)
    ensures n <= |data|
  {
    if data == [] then 0
    else Count(data[..|data| - 1], p) + (if p(data[|data| - 1]) then 1 else 0)
  }

  lemma {:induction false} CountAppend(a: seq<Row>, b: seq<Row>, p: Row -> bool)
    ensures Count(a + b, p) == Count(a, p) + Count(b, p)
  {
    if b == [] {
      assert a + b == a;
    } else {
      assert (a + b)[..|a + b| - 1] == a + b[..|b| - 1];
      CountAppend(a, b[..|b| - 1], p);
    }
  }

  lemma {:induction false} CountMonotone(data: seq<Row>, p: Row -> bool, q: Row -> bool)
    requires forall r :: p(r) ==> q(r)
    ensures Count(data, p) <= Count(data, q)
  {
    if data != [] {
      CountMonotone(data[..|data| - 1], p, q);
    }
  }

  /** Counting does not depend on the order of the rows. */
  lemma {:induction false} CountPermutation(a: seq<Row>, b: seq<Row>, p: Row -> bool)
    requires multiset(a) == multiset(b)
    ensures Count(a, p) == Count(b, p)
  {
    if a == [] {
      assert |b| == |multiset(b)| == 0;
    } else {
      var x := a[|a| - 1];
      assert a == a[..|a| - 1] + [x];
      assert x in multiset(b);
      var j :| 0 <= j < |b| && b[j] == x;
      assert b == b[..j] + [x] + b[j + 1..];
      var rest := b[..j] + b[j + 1..];
      assert multiset(b) == multiset(b[..j]) + multiset{x} + multiset(b[j + 1..]);
      assert multiset(rest) == multiset(b[..j]) + multiset(b[j + 1..]);
      assert multiset(a) == multiset(a[..|a| - 1]) + multiset{x};
      assert multiset(a[..|a| - 1]) == multiset(a) - multiset{x};
      assert multiset(rest) == multiset(b) - multiset{x};
      CountPermutation(a[..|a| - 1], rest, p);
      CountAppend(b[..j], b[j + 1..], p);
      CountAppend(b[..j], [x], p);
      CountAppend(b[..j] + [x], b[j + 1..], p);
      assert Count([x], p) == (if p(x) then 1 else 0) by {
        assert [x][..0] == [];
      }
    }
  }

  /** Rows whose column y holds v (`entry[yColumn] === v`). */
  function CountY(data: seq<Row>, y: string, v: int): nat {
    Count(data, r => Is(r, y, v))
  }

  /** Rows whose column x holds 1 and column y holds v. */
  function CountXY(data: seq<Row>, x: string, y: string, v: int): nat {
    Count(data, r => Is(r, x, 1) && Is(r, y, v))
  }

  lemma CountXYBound(data: seq<Row>, x: string, y: string, v: int)
    ensures CountXY(data, x, y, v) <= CountY(data, y, v)
  {
    CountMonotone(data, r => Is(r, x, 1) && Is(r, y, v), r => Is(r, y, v));
  }

  // ---------------------------------------------------------------------
  // The two estimates

  /** The smoothed prior `(#y=1 + 1) / (n + 2)`. It lies strictly between 0
      and 1 for every data set, the empty one and constant targets included. */
  function Prior(data: seq<Row>, y: string): (p: real)
    ensures 0.0 < p < 1.0
  {
    var ones := CountY(data, y, 1);
    assert ones <= |data|;
    (ones + 1) as real / (|data| + 2) as real
  }

  /** `(k + 1) / (n + 2)` with k <= n is strictly between 0 and 1. */
  lemma SmoothedBounds(k: nat, n: nat)
    requires k <= n
    ensures 0.0 < (k + 1) as real / (n + 2) as real < 1.0
  {
  }

  /** The smoothed pair
      `[(#x=1,y=0 + 1) / (#y=0 + 2), (#x=1,y=1 + 1) / (#y=1 + 2)]`,
      both entries strictly between 0 and 1. */
  function Likelihood(data: seq<Row>, x: string, y: string): (pr: Pair)
    ensures pr.Proper()
  {
    CountXYBound(data, x, y, 0);
    CountXYBound(data, x, y, 1);
    SmoothedBounds(CountXY(data, x, y, 0), CountY(data, y, 0));
    SmoothedBounds(CountXY(data, x, y, 1), CountY(data, y, 1));
    Pair((CountXY(data, x, y, 0) + 1) as real / (CountY(data, y, 0) + 2) as real,
         (CountXY(data, x, y, 1) + 1) as real / (CountY(data, y, 1) + 2) as real)
  }

  /** Both estimates depend only on the multiset of rows, not their order. */
  lemma OrderIndependent(a: seq<Row>, b: seq<Row>, x: string, y: string)
    requires multiset(a) == multiset(b)
    ensures Prior(a, y) == Prior(b, y)
    ensures Likelihood(a, x, y) == Likelihood(b, x, y)
  {
    assert |a| == |multiset(a)| == |multiset(b)| == |b|;
    CountPermutation(a, b, r => Is(r, y, 1));
    CountPermutation(a, b, r => Is(r, y, 0));
    CountPermutation(a, b, r => Is(r, x, 1) && Is(r, y, 1));
    CountPermutation(a, b, r => Is(r, x, 1) && Is(r, y, 0));
  }

  /** The table of pairs: one per column of the first row other than the
      target, each the smoothed pair of that column; no rows, no pairs. */
  function Table(data: seq<Row>, y: string): (cpt: Cpt)
    ensures cpt.Keys == if data == [] then {} else data[0].Keys - {y}
    ensures forall x :: x in cpt ==> cpt[x].Proper()
  {
    if data == [] then map[] else map x | x in data[0].Keys - {y} :: Likelihood(data, x, y)
  }

  // ---------------------------------------------------------------------
  // The counting loops

  /** `getPXGivenY(xColumn, yColumn, data)` */
  method GetPXGivenY(xColumn: string, yColumn: string, data: seq<Row>) returns (pr: Pair)
    ensures pr == Likelihood(data, xColumn, yColumn)
    ensures pr.Proper()
  {
    var xOneYOne, xOneYZero, yOne, yZero := 0, 0, 0, 0;
    for i := 0 to |data|
      invariant xOneYOne == CountXY(data[..i], xColumn, yColumn, 1)
      invariant xOneYZero == CountXY(data[..i], xColumn, yColumn, 0)
      invariant yOne == CountY(data[..i], yColumn, 1)
      invariant yZero == CountY(data[..i], yColumn, 0)
    {
      assert data[..i + 1][..i] == data[..i];
      var entry := data[i];
      if Is(entry, xColumn, 1) && Is(entry, yColumn, 1) {
        xOneYOne := xOneYOne + 1;
      }
      if Is(entry, xColumn, 1) && Is(entry, yColumn, 0) {
        xOneYZero := xOneYZero + 1;
      }
      if Is(entry, yColumn, 1) {
        yOne := yOne + 1;
      }
      if Is(entry, yColumn, 0) {
        yZero := yZero + 1;
      }
    }
    assert data[..|data|] == data;
    pr := Pair((xOneYZero + 1) as real / (yZero + 2) as real, (xOneYOne + 1) as real / (yOne + 2) as real);
  }

  /** `getAllPXGivenY(yColumn, data)`: one pair per column of the first row
      other than the target; no rows give an empty table (`for..in` over
      `undefined` visits nothing). */
  method GetAllPXGivenY(yColumn: string, data: seq<Row>) returns (cpt: Cpt)
    ensures cpt.Keys == if data == [] then {} else data[0].Keys - {yColumn}
    ensures forall x :: x in cpt ==> cpt[x] == Likelihood(data, x, yColumn) && cpt[x].Proper()
    ensures cpt == Table(data, yColumn)
  {
    cpt := map[];
    if data == [] {
      return;
    }
    var todo := data[0].Keys;
    while todo != {}
      invariant todo <= data[0].Keys
      invariant cpt.Keys == (data[0].Keys - todo) - {yColumn}
      invariant forall x :: x in cpt ==> cpt[x] == Likelihood(data, x, yColumn)
      decreases todo
    {
      var xVal :| xVal in todo;
      if xVal != yColumn {
        var pr := GetPXGivenY(xVal, yColumn, data);
        cpt := cpt[xVal := pr];
      }
      todo := todo - {xVal};
    }
  }

  /** `getPY(yColumn, data)` */
  method GetPY(yColumn: string, data: seq<Row>) returns (p: real)
    ensures p == Prior(data, yColumn)
    ensures 0.0 < p < 1.0
  {
    var yOne := 0;
    for i := 0 to |data|
      invariant yOne == CountY(data[..i], yColumn, 1)
    {
      assert data[..i + 1][..i] == data[..i];
      if Is(data[i], yColumn, 1) {
        yOne := yOne + 1;
      }
    }
    assert data[..|data|] == data;
    p := (yOne + 1) as real / (|data| + 2) as real;
  }
}

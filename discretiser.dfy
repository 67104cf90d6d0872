/** Discretiser: turns raw CSV records into 0/1 records. Gender and the two
    yes/no columns by exact text match, JobSatisfaction and MonthlyIncome by
    comparing with the column median. */
module Discretiser {
  import opened Records

  // ---------------------------------------------------------------------
  // Sorting and the median

  predicate SortedAsc(s: seq<int>) {
    forall i, j :: 0 <= i < j < |s| ==> s[i] <= s[j]
  }

  /** Insert x into a sorted sequence. */
  function Insert(x: int, s: seq<int>): (r: seq<int>)
    requires SortedAsc(s)
    ensures SortedAsc(r)
    ensures multiset(r) == multiset(s) + multiset{x}
  {
    if s == [] || x <= s[0] then
      PrependSorted(x, s);
      [x] + s
    else
      assert s == [s[0]] + s[1..];
      var rest := Insert(x, s[1..]);
      forall k | 0 <= k < |rest| ensures s[0] <= rest[k] {
        assert rest[k] in multiset(s[1..]) + multiset{x};
      }
      PrependSorted(s[0], rest);
      [s[0]] + rest
  }

  lemma PrependSorted(x: int, s: seq<int>)
    requires SortedAsc(s)
    requires forall k :: 0 <= k < |s| ==> x <= s[k]
    ensures SortedAsc([x] + s)
  {
    forall i, j | 0 <= i < j < |[x] + s| ensures ([x] + s)[i] <= ([x] + s)[j] {
      if i > 0 {
        assert ([x] + s)[i] == s[i - 1];
      }
      assert ([x] + s)[j] == s[j - 1];
    }
  }

  /** `arr.slice().sort((a, b) => a - b)`: an ascending copy. */
  function SortAscending(xs: seq<int>): (s: seq<int>)
    ensures SortedAsc(s)
    ensures multiset(s) == multiset(xs)
  {
    if xs == [] then []
    else
      assert xs == [xs[0]] + xs[1..];
      Insert(xs[0], SortAscending(xs[1..]))
  }

  lemma SortedHeadIsLeast(s: seq<int>)
    requires SortedAsc(s) && s != []
    ensures forall x :: x in multiset(s) ==> s[0] <= x
  {
    forall x | x in multiset(s) ensures s[0] <= x {
      var i :| 0 <= i < |s| && s[i] == x;
    }
  }

  lemma SortedTail(s: seq<int>)
    requires SortedAsc(s) && s != []
    ensures SortedAsc(s[1..])
    ensures multiset(s[1..]) == multiset(s) - multiset{s[0]}
  {
    assert s == [s[0]] + s[1..];
  }

  /** There is only one ascending arrangement of a multiset. */
  lemma {:induction false} SortedUnique(s: seq<int>, t: seq<int>)
    requires SortedAsc(s) && SortedAsc(t)
    requires multiset(s) == multiset(t)
    ensures s == t
  {
    if s == [] {
      assert |t| == |multiset(t)| == 0;
    } else {
      assert t != [] by {
        assert |t| == |multiset(t)| == |multiset(s)| == |s|;
      }
      assert s[0] == t[0] by {
        assert s[0] in multiset(t) && t[0] in multiset(s);
        SortedHeadIsLeast(s);
        SortedHeadIsLeast(t);
      }
      SortedTail(s);
      SortedTail(t);
      SortedUnique(s[1..], t[1..]);
      assert s == [s[0]] + s[1..] && t == [t[0]] + t[1..];
    }
  }

  /** The median of a sorted, non-empty sequence: the middle element for an
      odd length, the mean of the two central elements for an even one. */
  function SortedMedian(s: seq<int>): real
    requires |s| > 0
  {
    var mid := |s| / 2;
    if |s| % 2 != 0 then s[mid] as real else (s[mid - 1] + s[mid]) as real / 2.0
  }

  /** The standard median lies between the least and the greatest element. */
  lemma SortedMedianBounds(s: seq<int>)
    requires SortedAsc(s) && |s| > 0
    ensures s[0] as real <= SortedMedian(s) <= s[|s| - 1] as real
  {
    var mid := |s| / 2;
    assert s[0] <= s[mid] <= s[|s| - 1];
    if mid > 0 {
      assert s[0] <= s[mid - 1] <= s[|s| - 1];
    }
  }

  /** `median(arr)`: sorts a copy; an empty list gives NaN (the average of
      two undefined elements in JavaScript, numpy's nan in Python). */
  function Median(xs: seq<int>): (m: Number)
    ensures m.NaN? <==> xs == []
    ensures m.Finite? ==> exists i :: 0 <= i < |xs| && xs[i] as real <= m.value
    ensures m.Finite? ==> exists j :: 0 <= j < |xs| && m.value <= xs[j] as real
  {
    if xs == [] then NaN
    else
      var s := SortAscending(xs);
      SortedMedianBounds(s);
      assert s[0] in xs && s[|s| - 1] in xs by {
        assert s[0] in multiset(xs) && s[|s| - 1] in multiset(xs);
      }
      Finite(SortedMedian(s))
  }

  /** The median is the standard one of every ascending arrangement of the
      input, so it does not depend on the input's order. */
  lemma MedianOfSorted(xs: seq<int>, s: seq<int>)
    requires xs != []
    requires SortedAsc(s) && multiset(s) == multiset(xs)
    ensures |s| == |xs|
    ensures Median(xs) == Finite(SortedMedian(s))
  {
    assert |s| == |multiset(s)| == |multiset(xs)| == |xs|;
    SortedUnique(s, SortAscending(xs));
  }

  lemma MedianPermutation(xs: seq<int>, ys: seq<int>)
    requires multiset(xs) == multiset(ys)
    ensures Median(xs) == Median(ys)
  {
    if xs != [] {
      assert |xs| == |multiset(xs)| == |multiset(ys)| == |ys|;
      MedianOfSorted(ys, SortAscending(xs));
    } else {
      assert |ys| == |multiset(ys)| == 0;
    }
  }

  // ---------------------------------------------------------------------
  // Column medians and the projection

  /** Every row has the column, already parsed as an integer. */
  predicate NumericColumn(data: seq<RawRow>, column: string) {
    forall i :: 0 <= i < |data| ==> column in data[i] && data[i][column].Number?
  }

  /** `data.map(row => parseInt(row[factor]))` */
  function Column(data: seq<RawRow>, column: string): (xs: seq<int>)
    requires NumericColumn(data, column)
    ensures |xs| == |data|
  {
    seq(|data|, i requires 0 <= i < |data| && NumericColumn(data, column) => data[i][column].value)
  }

  /** `getMedianFactor(data, factor)`: the median of the parsed column. */
  function GetMedianFactor(data: seq<RawRow>, factor: string): (m: Number)
    requires NumericColumn(data, factor)
    ensures m.NaN? <==> data == []
    ensures m.Finite? ==> exists i :: 0 <= i < |data| && data[i][factor].value as real <= m.value
    ensures m.Finite? ==> exists j :: 0 <= j < |data| && m.value <= data[j][factor].value as real
  {
    var xs := Column(data, factor);
    var m := Median(xs);
    assert m.Finite? ==> exists i :: 0 <= i < |data| && xs[i] as real <= m.value;
    assert m.Finite? ==> exists j :: 0 <= j < |data| && m.value <= xs[j] as real;
    m
  }

  function OldKeySet(): set<string> {
    {"Gender", "OverTime", "JobSatisfaction", "MonthlyIncome", "Attrition"}
  }

  /** The row has the five raw columns (it may have more). */
  predicate HasOldKeys(row: RawRow) {
    "Gender" in row && "OverTime" in row && "JobSatisfaction" in row &&
    "MonthlyIncome" in row && "Attrition" in row
  }

  /** `Object.fromEntries(OLD_KEYS.map(k => [k, row[k]]))` */
  function Project(row: RawRow): (r: RawRow)
    requires HasOldKeys(row)
    ensures r.Keys == OldKeySet()
    ensures forall k :: k in r ==> r[k] == row[k]
  {
    map k | k in OldKeySet() :: row[k]
  }

  /** `deleteIrrelevantVariables(data)`: each row cut down to the five raw
      columns, values untouched, one row out per row in. */
  function DeleteIrrelevantVariables(data: seq<RawRow>): (r: seq<RawRow>)
    requires forall i :: 0 <= i < |data| ==> HasOldKeys(data[i])
    ensures |r| == |data|
    ensures forall i :: 0 <= i < |r| ==> r[i].Keys == OldKeySet()
    ensures forall i, k :: 0 <= i < |r| && k in r[i] ==> k in data[i] && r[i][k] == data[i][k]
  {
    seq(|data|, i requires 0 <= i < |data| && HasOldKeys(data[i]) => Project(data[i]))
  }

  /** The projection keeps a raw column's parsed values, so its median is
      the same before and after the cut. */
  lemma ProjectKeepsColumn(raw: seq<RawRow>, column: string)
    requires forall i :: 0 <= i < |raw| ==> HasOldKeys(raw[i])
    requires column in OldKeySet() && NumericColumn(raw, column)
    ensures NumericColumn(DeleteIrrelevantVariables(raw), column)
    ensures GetMedianFactor(DeleteIrrelevantVariables(raw), column) == GetMedianFactor(raw, column)
  {
    assert Column(DeleteIrrelevantVariables(raw), column) == Column(raw, column);
  }

  // ---------------------------------------------------------------------
  // Binarisation

  function Bit(b: bool): int {
    if b then 1 else 0
  }

  /** `parseInt(v) >= median`; every comparison with NaN is false. */
  predicate AtLeast(v: int, m: Number) {
    m.Finite? && v as real >= m.value
  }

  /** The median columns, where present, hold parsed integers. */
  predicate NumericCells(row: RawRow) {
    && ("JobSatisfaction" in row ==> row["JobSatisfaction"].Number?)
    && ("MonthlyIncome" in row ==> row["MonthlyIncome"].Number?)
  }

  /** The raw column a binarised field is read from. */
  function Source(field: string): string {
    if field == "Female" then "Gender" else field
  }

  /** The conversion rule of one field, applied to the cell of its raw column. */
  function Convert(field: string, c: Cell, medianIncome: Number, medianSatisfaction: Number): int
    requires field in KEYS
    requires field == "JobSatisfaction" || field == "MonthlyIncome" ==> c.Number?
  {
    if field == "Female" then Bit(c == Text("Female"))
    else if field == "JobSatisfaction" then Bit(AtLeast(c.value, medianSatisfaction))
    else if field == "MonthlyIncome" then Bit(AtLeast(c.value, medianIncome))
    else Bit(c == Text("Yes"))
  }

  /** The 0/1 record made from one raw record: the renamed field is present
      exactly when its raw column is, and holds the rule's bit. */
  function BooleanRow(row: RawRow, medianIncome: Number, medianSatisfaction: Number): (r: Row)
    requires NumericCells(row)
    ensures "Female" in r <==> "Gender" in row
    ensures "OverTime" in r <==> "OverTime" in row
    ensures "JobSatisfaction" in r <==> "JobSatisfaction" in row
    ensures "MonthlyIncome" in r <==> "MonthlyIncome" in row
    ensures "Attrition" in r <==> "Attrition" in row
    ensures forall k :: k in r ==> k in KEYS
    ensures "Female" in r ==> r["Female"] == Bit(row["Gender"] == Text("Female"))
    ensures "OverTime" in r ==> r["OverTime"] == Bit(row["OverTime"] == Text("Yes"))
    ensures "Attrition" in r ==> r["Attrition"] == Bit(row["Attrition"] == Text("Yes"))
    ensures "JobSatisfaction" in r ==>
      r["JobSatisfaction"] == Bit(AtLeast(row["JobSatisfaction"].value, medianSatisfaction))
    ensures "MonthlyIncome" in r ==>
      r["MonthlyIncome"] == Bit(AtLeast(row["MonthlyIncome"].value, medianIncome))
  {
    map f | f in KEYS && Source(f) in row :: Convert(f, row[Source(f)], medianIncome, medianSatisfaction)
  }

  /** A record with exactly the five raw columns becomes a record with
      exactly the five binarised fields, each 0 or 1. */
  lemma FullRowConversion(row: RawRow, medianIncome: Number, medianSatisfaction: Number)
    requires NumericCells(row) && row.Keys == OldKeySet()
    ensures BooleanRow(row, medianIncome, medianSatisfaction).Keys == set k | k in KEYS
    ensures forall k :: k in BooleanRow(row, medianIncome, medianSatisfaction) ==>
      BooleanRow(row, medianIncome, medianSatisfaction)[k] in {0, 1}
  {
  }

  /** The fields converted once the raw columns in `done` have been visited. */
  function Partial(row: RawRow, done: set<string>, medianIncome: Number, medianSatisfaction: Number): Row
    requires NumericCells(row) && done <= row.Keys
  {
    map f | f in KEYS && Source(f) in done :: Convert(f, row[Source(f)], medianIncome, medianSatisfaction)
  }

  /** Visiting one more raw column sets the field it feeds, if any. */
  lemma PartialStep(row: RawRow, done: set<string>, k: string, medianIncome: Number, medianSatisfaction: Number)
    requires NumericCells(row) && done <= row.Keys && k in row
    ensures Partial(row, done + {k}, medianIncome, medianSatisfaction) ==
      var p := Partial(row, done, medianIncome, medianSatisfaction);
      if k == "Gender" then p["Female" := Convert("Female", row[k], medianIncome, medianSatisfaction)]
      else if k in KEYS && k != "Female" then p[k := Convert(k, row[k], medianIncome, medianSatisfaction)]
      else p
  {
  }

  /** The `for (const xVal in row)` loop of `convertDataToBoolean`, which
      fills the new record one raw column at a time. A column outside the
      five is skipped. */
  method ConvertRow(row: RawRow, medianIncome: Number, medianSatisfaction: Number) returns (newRow: Row)
    requires NumericCells(row)
    ensures newRow == BooleanRow(row, medianIncome, medianSatisfaction)
  {
    newRow := map[];
    var todo := row.Keys;
    while todo != {}
      invariant todo <= row.Keys
      invariant newRow == Partial(row, row.Keys - todo, medianIncome, medianSatisfaction)
      decreases todo
    {
      var k :| k in todo;
      PartialStep(row, row.Keys - todo, k, medianIncome, medianSatisfaction);
      assert (row.Keys - todo) + {k} == row.Keys - (todo - {k});
      if k == "Gender" {
        newRow := newRow["Female" := Bit(row[k] == Text("Female"))];
      } else if k == "OverTime" {
        newRow := newRow["OverTime" := Bit(row[k] == Text("Yes"))];
      } else if k == "JobSatisfaction" {
        newRow := newRow["JobSatisfaction" := Bit(AtLeast(row[k].value, medianSatisfaction))];
      } else if k == "MonthlyIncome" {
        newRow := newRow["MonthlyIncome" := Bit(AtLeast(row[k].value, medianIncome))];
      } else if k == "Attrition" {
        newRow := newRow["Attrition" := Bit(row[k] == Text("Yes"))];
      }
      todo := todo - {k};
    }
    assert row.Keys - {} == row.Keys;
  }

  /** `convertDataToBoolean(data, medianIncome, medianSatisfaction)`:
      one 0/1 record per raw record, in order. */
  method ConvertDataToBoolean(data: seq<RawRow>, medianIncome: Number, medianSatisfaction: Number)
    returns (booleanData: seq<Row>)
    requires forall i :: 0 <= i < |data| ==> NumericCells(data[i])
    ensures |booleanData| == |data|
    ensures forall i :: 0 <= i < |data| ==> booleanData[i] == BooleanRow(data[i], medianIncome, medianSatisfaction)
  {
    booleanData := [];
    for i := 0 to |data|
      invariant |booleanData| == i
      invariant forall j :: 0 <= j < i ==> booleanData[j] == BooleanRow(data[j], medianIncome, medianSatisfaction)
    {
      var newRow := ConvertRow(data[i], medianIncome, medianSatisfaction);
      booleanData := booleanData + [newRow];
    }
  }

  /** The preprocessing inside `load`, after the CSV is parsed: project,
      take the two medians, binarise. */
  method Prepare(raw: seq<RawRow>) returns (booleanData: seq<Row>)
    requires forall i :: 0 <= i < |raw| ==> HasOldKeys(raw[i])
    requires NumericColumn(raw, "JobSatisfaction") && NumericColumn(raw, "MonthlyIncome")
    ensures |booleanData| == |raw|
    ensures forall i :: 0 <= i < |raw| ==> booleanData[i].Keys == set k | k in KEYS
    ensures forall i, k :: 0 <= i < |raw| && k in booleanData[i] ==> booleanData[i][k] in {0, 1}
    ensures forall i :: 0 <= i < |raw| ==>
      booleanData[i] == BooleanRow(Project(raw[i]),
                                   GetMedianFactor(raw, "MonthlyIncome"),
                                   GetMedianFactor(raw, "JobSatisfaction"))
  {
    var newData := DeleteIrrelevantVariables(raw);
    ProjectKeepsColumn(raw, "JobSatisfaction");
    ProjectKeepsColumn(raw, "MonthlyIncome");
    var medianSatisfaction := GetMedianFactor(newData, "JobSatisfaction");
    var medianIncome := GetMedianFactor(newData, "MonthlyIncome");
    booleanData := ConvertDataToBoolean(newData, medianIncome, medianSatisfaction);
    forall i | 0 <= i < |raw|
      ensures booleanData[i].Keys == set k | k in KEYS
      ensures forall k :: k in booleanData[i] ==> booleanData[i][k] in {0, 1}
    {
      FullRowConversion(newData[i], medianIncome, medianSatisfaction);
    }
  }
}

/** The data model shared by the three copies of the attrition classifier:
    raw and binarised records, the two field tables, probability pairs,
    and the insertion-ordered dictionaries that JavaScript objects and
    Python dicts are. */
module Records {

  datatype Option<T> = None | Some(value: T)

  /** One cell of a raw CSV record: literal text, or a numeric field whose
      text has already been parsed as an integer by the loader. */
  datatype Cell = Text(text: string) | Number(value: int)

  type RawRow = map<string, Cell>

  /** A binarised record: field name to 0 or 1 (any int is allowed here;
      the estimator only ever compares a value with 0 and 1). */
  type Row = map<string, int>

  /** The raw columns kept from each CSV record. */
  const OLD_KEYS: seq<string> := ["Gender", "OverTime", "JobSatisfaction", "MonthlyIncome", "Attrition"]

  /** The binarised field names, position by position with OLD_KEYS. */
  const KEYS: seq<string> := ["Female", "OverTime", "JobSatisfaction", "MonthlyIncome", "Attrition"]

  /** `row[col] === v`: a column the row lacks reads as undefined, which
      equals no number. */
  predicate Is(row: Row, col: string, v: int) {
    col in row && row[col] == v
  }

  /** The class label 0 or 1, used as the index into a probability pair. */
  type Label = y: int | 0 <= y <= 1

  /** `[P(x=1 | y=0), P(x=1 | y=1)]` for one predictor column. */
  datatype Pair = Pair(given0: real, given1: real) {
    /** `pair[y]` */
    function At(y: Label): real {
      if y == 0 then given0 else given1
    }

    /** Both entries strictly between 0 and 1. */
    predicate Proper() {
      0.0 < given0 < 1.0 && 0.0 < given1 < 1.0
    }
  }

  /** The conditional probability table: predictor name to its pair. */
  type Cpt = map<string, Pair>

  /** A numeric result that can be NaN, as the median of an empty list is. */
  datatype Number = NaN | Finite(value: real)

  /** An insertion-ordered dictionary from names to integers. */
  type Entries = seq<(string, int)>

  function Keys(e: Entries): seq<string> {
    seq(|e|, i requires 0 <= i < |e| => e[i].0)
  }

  /** No name occurs twice, as in any JavaScript object or Python dict. */
  predicate Distinct(s: seq<string>) {
    forall i, j :: 0 <= i < j < |s| ==> s[i] != s[j]
  }

  /** `d[k] = v`: overwrite the entry for k in place, or append a new one. */
  function Put(e: Entries, k: string, v: int): Entries {
    if e == [] then [(k, v)]
    else if e[0].0 == k then [(k, v)] + e[1..]
    else [e[0]] + Put(e[1..], k, v)
  }

  /** `delete d[k]` / `del d[k]`: drop the entries for k. */
  function Delete(e: Entries, k: string): Entries {
    if e == [] then []
    else if e[0].0 == k then Delete(e[1..], k)
    else [e[0]] + Delete(e[1..], k)
  }

  /** Every name of s paired with the value v, in order. */
  function Pairs(s: seq<string>, v: int): (e: Entries)
    ensures |e| == |s|
  {
    seq(|s|, i requires 0 <= i < |s| => (s[i], v))
  }

  /** The names of s, each at its first occurrence. */
  function Dedup(s: seq<string>): (d: seq<string>)
    ensures forall x :: x in d <==> x in s
  {
    if s == [] then []
    else
      var d := Dedup(s[..|s| - 1]);
      if s[|s| - 1] in d then d else d + [s[|s| - 1]]
  }

  /** The names of s other than y, in order. */
  function Without(s: seq<string>, y: string): (w: seq<string>)
    ensures forall x :: x in w <==> x in s && x != y
  {
    if s == [] then []
    else if s[0] == y then Without(s[1..], y)
    else [s[0]] + Without(s[1..], y)
  }

  lemma {:induction false} DedupElements(s: seq<string>)
    ensures Distinct(Dedup(s))
  {
    if s != [] {
      DedupElements(s[..|s| - 1]);
      assert s == s[..|s| - 1] + [s[|s| - 1]];
    }
  }

  lemma {:induction false} WithoutElements(s: seq<string>, y: string)
    ensures Distinct(s) ==> Distinct(Without(s, y))
  {
    if s != [] {
      WithoutElements(s[1..], y);
      if Distinct(s) {
        assert Distinct(s[1..]);
        assert s[0] !in s[1..];
        var w := Without(s[1..], y);
        if s[0] != y {
          forall i, j | 0 <= i < j < |[s[0]] + w| ensures ([s[0]] + w)[i] != ([s[0]] + w)[j] {
            if i == 0 {
              assert ([s[0]] + w)[j] == w[j - 1];
            }
          }
        }
      }
    }
  }

  lemma {:induction false} PutPairsPresent(d: seq<string>, k: string, v: int)
    requires k in d
    ensures Put(Pairs(d, v), k, v) == Pairs(d, v)
  {
    if d[0] != k {
      PutPairsPresent(d[1..], k, v);
      assert Pairs(d, v)[1..] == Pairs(d[1..], v);
    }
  }

  /** With distinct names, `d[k] = v` for a name that is present replaces
      that one entry, where it stands. */
  lemma {:induction false} PutPresent(e: Entries, i: nat, v: int)
    requires i < |e| && Distinct(Keys(e))
    ensures Put(e, e[i].0, v) == e[i := (e[i].0, v)]
  {
    if i > 0 {
      assert Keys(e)[0] != Keys(e)[i];
      assert Keys(e[1..]) == Keys(e)[1..];
      PutPresent(e[1..], i - 1, v);
      assert e[i := (e[i].0, v)] == [e[0]] + e[1..][i - 1 := (e[i].0, v)];
    }
  }

  lemma {:induction false} PutAbsent(e: Entries, k: string, v: int)
    requires k !in Keys(e)
    ensures Put(e, k, v) == e + [(k, v)]
  {
    if e != [] {
      assert e[0].0 == Keys(e)[0];
      assert Keys(e[1..]) == Keys(e)[1..];
      PutAbsent(e[1..], k, v);
    }
  }

  lemma {:induction false} DeleteConcat(a: Entries, b: Entries, k: string)
    ensures Delete(a + b, k) == Delete(a, k) + Delete(b, k)
  {
    if a != [] {
      assert (a + b)[1..] == a[1..] + b;
      DeleteConcat(a[1..], b, k);
    } else {
      assert a + b == b;
    }
  }

  lemma {:induction false} DeletePairs(s: seq<string>, v: int, k: string)
    ensures Delete(Pairs(s, v), k) == Pairs(Without(s, k), v)
  {
    if s != [] {
      assert Pairs(s, v)[1..] == Pairs(s[1..], v);
      DeletePairs(s[1..], v, k);
    }
  }

  lemma KeysPairs(s: seq<string>, v: int)
    ensures Keys(Pairs(s, v)) == s
  {
  }

  lemma KeysConcat(a: Entries, b: Entries)
    ensures Keys(a + b) == Keys(a) + Keys(b)
  {
  }
}

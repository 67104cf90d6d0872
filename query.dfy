/** The browser form's query side: the 0/1 record built from the checked
    boxes, and its two printable forms. */
module Query {
  import opened Records

  // ---------------------------------------------------------------------
  // The query record

  /** The names of keys that are not checked, in the order of keys. */
  function Unchecked(keys: seq<string>, checked: seq<string>): seq<string> {
    if keys == [] then []
    else
      var u := Unchecked(keys[..|keys| - 1], checked);
      var k := keys[|keys| - 1];
      if k in checked then u else u + [k]
  }

  /** The record `getUserXVals(yColumn)` returns: the checked names at 1 in
      the order they were first checked, then every unchecked field of KEYS
      at 0 in KEYS order, with the target left out. */
  function XVals(checked: seq<string>, yColumn: string): Entries {
    Pairs(Without(Dedup(checked), yColumn), 1) + Pairs(Without(Unchecked(KEYS, checked), yColumn), 0)
  }

  lemma {:induction false} UncheckedElements(keys: seq<string>, checked: seq<string>)
    ensures forall x :: x in Unchecked(keys, checked) <==> x in keys && x !in checked
    ensures Distinct(keys) ==> Distinct(Unchecked(keys, checked))
  {
    if keys != [] {
      var init := keys[..|keys| - 1];
      UncheckedElements(init, checked);
      assert keys == init + [keys[|keys| - 1]];
      if Distinct(keys) {
        assert Distinct(init);
        assert keys[|keys| - 1] !in init;
      }
    }
  }

  lemma DistinctConcat(a: seq<string>, b: seq<string>)
    requires Distinct(a) && Distinct(b)
    requires forall x :: x in a ==> x !in b
    ensures Distinct(a + b)
  {
    forall i, j | 0 <= i < j < |a + b| ensures (a + b)[i] != (a + b)[j] {
      if i < |a| && j >= |a| {
        assert (a + b)[i] in a && (a + b)[j] == b[j - |a|];
      }
    }
  }

  /** What the query record holds: distinct names, exactly the checked names
      and the fields of KEYS other than the target, and 1 exactly at the
      checked names. So when every checked name is a field of KEYS, its names
      are exactly KEYS without the target. */
  lemma XValsShape(checked: seq<string>, yColumn: string)
    ensures Distinct(Keys(XVals(checked, yColumn)))
    ensures forall k :: k in Keys(XVals(checked, yColumn)) <==> (k in checked || k in KEYS) && k != yColumn
    ensures forall i :: 0 <= i < |XVals(checked, yColumn)| ==>
      XVals(checked, yColumn)[i].1 == if XVals(checked, yColumn)[i].0 in checked then 1 else 0
  {
    var d := Without(Dedup(checked), yColumn);
    var u := Without(Unchecked(KEYS, checked), yColumn);
    DedupElements(checked);
    WithoutElements(Dedup(checked), yColumn);
    assert Distinct(KEYS);
    UncheckedElements(KEYS, checked);
    WithoutElements(Unchecked(KEYS, checked), yColumn);
    KeysConcat(Pairs(d, 1), Pairs(u, 0));
    KeysPairs(d, 1);
    KeysPairs(u, 0);
    DistinctConcat(d, u);
    var e := XVals(checked, yColumn);
    forall i | 0 <= i < |e| ensures e[i].1 == if e[i].0 in checked then 1 else 0 {
      if i < |d| {
        assert e[i] == (d[i], 1) && d[i] in d;
      } else {
        assert e[i] == (u[i - |d|], 0) && u[i - |d|] in u;
      }
    }
  }

  /** The `checkboxes.forEach` loop: each checked name set to 1. */
  method MarkChecked(checked: seq<string>) returns (userInputs: Entries)
    ensures userInputs == Pairs(Dedup(checked), 1)
    ensures Distinct(Keys(userInputs))
    ensures forall k :: k in Keys(userInputs) <==> k in checked
    ensures forall i :: 0 <= i < |userInputs| ==> userInputs[i].1 == 1
  {
    userInputs := [];
    for i := 0 to |checked|
      invariant userInputs == Pairs(Dedup(checked[..i]), 1)
    {
      var name := checked[i];
      ghost var d := Dedup(checked[..i]);
      assert checked[..i + 1][..i] == checked[..i];
      if name in d {
        PutPairsPresent(d, name, 1);
      } else {
        KeysPairs(d, 1);
        PutAbsent(Pairs(d, 1), name, 1);
        assert Pairs(d, 1) + [(name, 1)] == Pairs(d + [name], 1);
      }
      userInputs := Put(userInputs, name, 1);
    }
    assert checked[..|checked|] == checked;
    DedupElements(checked);
    KeysPairs(Dedup(checked), 1);
  }

  /** One step of the loop over KEYS: a field already in the record is
      left alone, a missing one is appended at 0. */
  lemma {:induction false} FillStep(checked: seq<string>, j: nat)
    requires j < |KEYS|
    ensures var e := Pairs(Dedup(checked), 1) + Pairs(Unchecked(KEYS[..j], checked), 0);
      (if KEYS[j] in Keys(e) then e else Put(e, KEYS[j], 0)) ==
      Pairs(Dedup(checked), 1) + Pairs(Unchecked(KEYS[..j + 1], checked), 0)
  {
    var d := Dedup(checked);
    var u := Unchecked(KEYS[..j], checked);
    var e := Pairs(d, 1) + Pairs(u, 0);
    var xVal := KEYS[j];
    assert Distinct(KEYS);
    assert KEYS[..j + 1][..j] == KEYS[..j];
    assert KEYS[..j + 1][j] == xVal;
    UncheckedElements(KEYS[..j], checked);
    assert xVal !in KEYS[..j];
    KeysConcat(Pairs(d, 1), Pairs(u, 0));
    KeysPairs(d, 1);
    KeysPairs(u, 0);
    if xVal !in Keys(e) {
      PutAbsent(e, xVal, 0);
      assert Pairs(u, 0) + [(xVal, 0)] == Pairs(u + [xVal], 0);
    }
  }

  /** Deleting the target from the filled record gives the query record. */
  lemma DeleteTarget(checked: seq<string>, yColumn: string)
    ensures Delete(Pairs(Dedup(checked), 1) + Pairs(Unchecked(KEYS, checked), 0), yColumn) == XVals(checked, yColumn)
  {
    DeleteConcat(Pairs(Dedup(checked), 1), Pairs(Unchecked(KEYS, checked), 0), yColumn);
    DeletePairs(Dedup(checked), 1, yColumn);
    DeletePairs(Unchecked(KEYS, checked), 0, yColumn);
  }

  /** `getUserXVals(yColumn)` of the browser form, over the names of the
      checked boxes in page order. */
  method GetUserXVals(checked: seq<string>, yColumn: string) returns (userInputs: Entries)
    ensures userInputs == XVals(checked, yColumn)
    ensures Distinct(Keys(userInputs))
    ensures forall k :: k in Keys(userInputs) <==> (k in checked || k in KEYS) && k != yColumn
    ensures forall i :: 0 <= i < |userInputs| ==>
      userInputs[i].1 == if userInputs[i].0 in checked then 1 else 0
  {
    userInputs := MarkChecked(checked);
    for j := 0 to |KEYS|
      invariant userInputs == Pairs(Dedup(checked), 1) + Pairs(Unchecked(KEYS[..j], checked), 0)
    {
      var xVal := KEYS[j];
      FillStep(checked, j);
      if xVal !in Keys(userInputs) {
        userInputs := Put(userInputs, xVal, 0);
      }
    }
    assert KEYS[..|KEYS|] == KEYS;
    DeleteTarget(checked, yColumn);
    userInputs := Delete(userInputs, yColumn);
    XValsShape(checked, yColumn);
  }

  // ---------------------------------------------------------------------
  // Printable forms

  function Digit(d: int): char
    requires 0 <= d <= 9
  {
    "0123456789"[d]
  }

  /** JavaScript's decimal text of a non-negative integer. */
  function NatToString(n: nat): string {
    if n < 10 then [Digit(n)] else NatToString(n / 10) + [Digit(n % 10)]
  }

  /** JavaScript's decimal text of an integer, as string concatenation shows it. */
  function IntToString(n: int): string {
    if n < 0 then "-" + NatToString(-n) else NatToString(n)
  }

  /** The items separated by ", ", with no leading or trailing separator. */
  function Join(items: seq<string>): string {
    if items == [] then ""
    else if |items| == 1 then items[0]
    else Join(items[..|items| - 1]) + ", " + items[|items| - 1]
  }

  /** `", " + item` for each item, concatenated: what the loops build. */
  function Prefixed(items: seq<string>): string {
    if items == [] then "" else Prefixed(items[..|items| - 1]) + ", " + items[|items| - 1]
  }

  /** `s.slice(k)`: the text from index k on, empty when s is shorter. */
  function Slice(s: string, k: nat): string {
    if k <= |s| then s[k..] else ""
  }

  /** The loops' text is the join with one separator in front. */
  lemma {:induction false} PrefixedJoin(items: seq<string>)
    requires items != []
    ensures Prefixed(items) == ", " + Join(items)
  {
    var init := items[..|items| - 1];
    var last := items[|items| - 1];
    if init == [] {
      assert Prefixed(items) == Prefixed(init) + ", " + last;
    } else {
      PrefixedJoin(init);
      assert Join(items) == Join(init) + ", " + last;
      assert Prefixed(items) == (", " + Join(init)) + ", " + last;
    }
  }

  lemma PrefixedSnoc(items: seq<string>, i: nat)
    requires i < |items|
    ensures Prefixed(items[..i + 1]) == Prefixed(items[..i]) + (", " + items[i])
  {
    assert items[..i + 1][..i] == items[..i];
    assert Prefixed(items[..i + 1]) == Prefixed(items[..i]) + ", " + items[i];
  }

  /** Dropping the first separator of the concatenation gives the join;
      no items give the empty text. */
  lemma SliceOfPrefixed(items: seq<string>)
    ensures Slice(Prefixed(items), 2) == Join(items)
  {
    if items != [] {
      PrefixedJoin(items);
      assert (", " + Join(items))[2..] == Join(items);
    }
  }

  function OutputItem(entry: (string, int)): string {
    entry.0 + "=" + IntToString(entry.1)
  }

  function WordItem(entry: (string, int)): string {
    entry.0 + " is " + (if entry.1 == 1 then "true" else "false")
  }

  function OutputItems(userRow: Entries): (items: seq<string>)
    ensures |items| == |userRow|
  {
    seq(|userRow|, i requires 0 <= i < |userRow| => OutputItem(userRow[i]))
  }

  function WordItems(userRow: Entries): (items: seq<string>)
    ensures |items| == |userRow|
  {
    seq(|userRow|, i requires 0 <= i < |userRow| => WordItem(userRow[i]))
  }

  /** `getUserRowOutput(userRow)`: `key=value` per entry, in entry order,
      joined by ", ". */
  method GetUserRowOutput(userRow: Entries) returns (s: string)
    ensures s == Join(OutputItems(userRow))
  {
    var output := "";
    for i := 0 to |userRow|
      invariant output == Prefixed(OutputItems(userRow)[..i])
    {
      var item := OutputItem(userRow[i]);
      PrefixedSnoc(OutputItems(userRow), i);
      output := output + (", " + item);
    }
    assert OutputItems(userRow)[..|userRow|] == OutputItems(userRow);
    SliceOfPrefixed(OutputItems(userRow));
    s := Slice(output, 2);
  }

  /** `getUserRowWords(userRow)`: `key is true` for a value 1 and
      `key is false` for every other value, in entry order, joined by ", ". */
  method GetUserRowWords(userRow: Entries) returns (s: string)
    ensures s == Join(WordItems(userRow))
  {
    var output := "";
    for i := 0 to |userRow|
      invariant output == Prefixed(WordItems(userRow)[..i])
    {
      var item := WordItem(userRow[i]);
      PrefixedSnoc(WordItems(userRow), i);
      output := output + ", ";
      output := output + item;
    }
    assert WordItems(userRow)[..|userRow|] == WordItems(userRow);
    SliceOfPrefixed(WordItems(userRow));
    s := Slice(output, 2);
  }
}

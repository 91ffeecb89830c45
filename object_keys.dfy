/** The rows d3 parses a CSV file into, and the order in which
    `Object.keys` lists their columns. */
module ObjectKeys {
  import opened Wrappers
  import opened JsNumber

  /** One parsed CSV row: an object whose own properties are the column
      names, created in column order, each holding the cell's text. The type
      admits a name twice, which no JavaScript object does; `DistinctNames`
      picks out the rows that are objects, and on any other row `Get` reads
      the first entry for a name. */
  type Row = seq<(string, string)>

  /** No column name occurs twice, as in every JavaScript object. */
  predicate DistinctNames(row: Row) {
    forall i, j :: 0 <= i < j < |row| ==> row[i].0 != row[j].0
  }

  /** The column names of a row, in creation order. */
  function Names(row: Row): (ks: seq<string>)
    ensures |ks| == |row|
    ensures forall i :: 0 <= i < |row| ==> ks[i] == row[i].0
  {
    if row == [] then [] else [row[0].0] + Names(row[1..])
  }

  /** `row[key]`: the cell's text, or `None` for `undefined`. */
  function Get(row: Row, key: string): (r: Option<string>)
    ensures r.None? <==> key !in Names(row)
    ensures r.Some? ==> exists i :: 0 <= i < |row| && row[i] == (key, r.value)
  {
    if row == [] then None
    else if row[0].0 == key then Some(row[0].1)
    else
      var r := Get(row[1..], key);
      assert Names(row) == [row[0].0] + Names(row[1..]);
      assert r.Some? ==> exists i :: 0 <= i < |row[1..]| && row[1..][i] == (key, r.value);
      r
  }

  /** A property name that is an array index: the canonical decimal form of
      an integer below 2^32 - 1. `Object.keys` lists these first. */
  predicate IsArrayIndex(k: string) {
    IsCanonicalDigits(k) && DigitsValue(k) < 0xFFFF_FFFF
  }

  predicate AllIndices(ks: seq<string>) {
    forall i :: 0 <= i < |ks| ==> IsArrayIndex(ks[i])
  }

  /** The numeric value of an array-index key. */
  function IndexValue(k: string): nat {
    if AllDigits(k) then DigitsValue(k) else 0
  }

  /** Each key is numerically no greater than the next one. */
  predicate Ascending(ks: seq<string>) {
    forall i :: 0 <= i < |ks| - 1 ==> IndexValue(ks[i]) <= IndexValue(ks[i + 1])
  }

  /** The array-index names of `ks`, in their order in `ks`. */
  function IndexNames(ks: seq<string>): (r: seq<string>)
    ensures AllIndices(r)
  {
    if ks == [] then []
    else if IsArrayIndex(ks[0]) then [ks[0]] + IndexNames(ks[1..])
    else IndexNames(ks[1..])
  }

  /** The other names of `ks`, in their order in `ks`. */
  function OtherNames(ks: seq<string>): (r: seq<string>)
    ensures forall k :: k in r ==> !IsArrayIndex(k)
  {
    if ks == [] then []
    else if IsArrayIndex(ks[0]) then OtherNames(ks[1..])
    else [ks[0]] + OtherNames(ks[1..])
  }

  /** Insert a key into an ascending list of keys. */
  function Insert(k: string, s: seq<string>): (r: seq<string>)
    requires Ascending(s)
    ensures Ascending(r)
    ensures multiset(r) == multiset(s) + multiset{k}
    ensures s != [] ==> r[0] == k || r[0] == s[0]
    ensures s == [] ==> r == [k]
  {
    if s == [] || IndexValue(k) <= IndexValue(s[0]) then [k] + s
    else
      var t := Insert(k, s[1..]);
      assert s == [s[0]] + s[1..];
      [s[0]] + t
  }

  /** The array-index keys of an object in ascending numeric order. */
  function SortIndices(s: seq<string>): (r: seq<string>)
    ensures Ascending(r)
    ensures multiset(r) == multiset(s)
  {
    if s == [] then []
    else
      assert s == [s[0]] + s[1..];
      Insert(s[0], SortIndices(s[1..]))
  }

  /** `Object.keys(row)`: the array-index names in ascending numeric order,
      then every other name in creation order. */
  function OwnKeys(row: Row): (ks: seq<string>)
    ensures |ks| == |row|
    ensures forall k :: k in ks <==> k in Names(row)
  {
    var names := Names(row);
    KeyOrderKeepsNames(names);
    SortIndices(IndexNames(names)) + OtherNames(names)
  }

  /** The key order drops and adds no name. */
  lemma KeyOrderKeepsNames(names: seq<string>)
    ensures var ks := SortIndices(IndexNames(names)) + OtherNames(names);
      |ks| == |names| && forall k :: k in ks <==> k in names
  {
    var ks := SortIndices(IndexNames(names)) + OtherNames(names);
    SplitNames(names);
    assert multiset(ks) == multiset(names);
    assert |multiset(ks)| == |ks| && |multiset(names)| == |names|;
    forall k ensures k in ks <==> k in names {
      assert k in ks <==> k in multiset(ks);
      assert k in names <==> k in multiset(names);
    }
  }

  lemma {:induction false} SplitNames(ks: seq<string>)
    ensures multiset(IndexNames(ks)) + multiset(OtherNames(ks)) == multiset(ks)
  {
    if ks != [] {
      SplitNames(ks[1..]);
      assert ks == [ks[0]] + ks[1..];
    }
  }

  /** `Object.keys` lists every column name of the row exactly as often as
      the row has it, only reordered. */
  lemma OwnKeysPermutation(row: Row)
    ensures multiset(OwnKeys(row)) == multiset(Names(row))
  {
    SplitNames(Names(row));
  }

  /** In a row with distinct names, every name is listed exactly once. */
  lemma {:induction false} DistinctOnce(ks: seq<string>)
    requires forall i, j :: 0 <= i < j < |ks| ==> ks[i] != ks[j]
    ensures forall k :: k in ks ==> multiset(ks)[k] == 1
  {
    if ks != [] {
      DistinctOnce(ks[1..]);
      assert ks == [ks[0]] + ks[1..];
      assert ks[0] !in ks[1..];
    }
  }

  /** For a row that is a JavaScript object, `Object.keys` lists each of its
      property names exactly once and nothing else. */
  lemma OwnKeysOnce(row: Row)
    requires DistinctNames(row)
    ensures forall k :: k in OwnKeys(row) <==> k in Names(row)
    ensures forall k :: k in OwnKeys(row) ==> multiset(OwnKeys(row))[k] == 1
  {
    OwnKeysPermutation(row);
    DistinctOnce(Names(row));
  }

  /** When the row has no array-index names, `Object.keys` keeps creation
      order. */
  lemma {:induction false} OwnKeysCreationOrder(row: Row)
    requires forall k :: k in Names(row) ==> !IsArrayIndex(k)
    ensures OwnKeys(row) == Names(row)
  {
    NoIndexNames(Names(row));
  }

  lemma {:induction false} NoIndexNames(ks: seq<string>)
    requires forall k :: k in ks ==> !IsArrayIndex(k)
    ensures IndexNames(ks) == [] && OtherNames(ks) == ks
  {
    if ks != [] {
      assert ks == [ks[0]] + ks[1..];
      NoIndexNames(ks[1..]);
    }
  }
}

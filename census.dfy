/** The census table: the years read from the CSV header, the map from
    county code to (year → population) and the largest population seen. */
module Census {
  import opened Wrappers
  import opened JsNumber
  import opened ObjectKeys

  /** The id-mapping file: census region name → county code. */
  type IdTable = map<string, string>

  /** One county's populations by year. `script.js` keys a d3 map by the
      year's string form; `ToString` is one-to-one on `Num`, so keying by the
      number itself is the same table. */
  type Datum = map<Num, Num>

  /** `censusData`: county code → that county's populations. */
  type CensusData = map<string, Datum>

  const NameColumn := "name"

  /** What `String(undefined)` gives, which `parseInt` then reads. */
  const Undefined := "undefined"

  // ---------------------------------------------------------------------
  // extractYears

  /** The names of `ks` other than the `name` column, in order. */
  function NonNameKeys(ks: seq<string>): (r: seq<string>)
    ensures forall k :: k in r <==> k in ks && k != NameColumn
    ensures |r| == |ks| - multiset(ks)[NameColumn]
  {
    if ks == [] then []
    else
      assert ks == [ks[0]] + ks[1..];
      if ks[0] == NameColumn then NonNameKeys(ks[1..]) else [ks[0]] + NonNameKeys(ks[1..])
  }

  /** `parseInt(k, 10)` of every key, in order. */
  function ParseAll(ks: seq<string>): (ys: seq<Num>)
    ensures |ys| == |ks|
    ensures forall i :: 0 <= i < |ks| ==> ys[i] == ParseInt(ks[i])
  {
    if ks == [] then [] else [ParseInt(ks[0])] + ParseAll(ks[1..])
  }

  /** `extractYears`: the keys of the first row other than `name`, each
      parsed as a decimal integer. With no rows, `recensaminte[0]` is
      `undefined` and `Object.keys` throws: `None`. */
  function ExtractYears(rows: seq<Row>): (r: Option<seq<Num>>)
    ensures r.None? <==> rows == []
    ensures r.Some? ==> |r.value| == |Names(rows[0])| - multiset(Names(rows[0]))[NameColumn]
  {
    if rows == [] then None
    else
      OwnKeysPermutation(rows[0]);
      Some(ParseAll(NonNameKeys(OwnKeys(rows[0]))))
  }

  /** One year per header name other than `name`, in `Object.keys` order;
      whatever that order, the years are the parsed header names of the
      first row's other columns, each as often as it heads a column. */
  lemma YearsFromHeader(rows: seq<Row>)
    ensures ExtractYears(rows).None? <==> rows == []
    ensures rows != [] ==>
      var keys := NonNameKeys(OwnKeys(rows[0]));
      var years := ExtractYears(rows).value;
      && |years| == |Names(rows[0])| - multiset(Names(rows[0]))[NameColumn]
      && forall i :: 0 <= i < |keys| ==> years[i] == ParseInt(keys[i])
    ensures rows != [] ==>
      multiset(ExtractYears(rows).value) == multiset(ParseAll(NonNameKeys(Names(rows[0]))))
  {
    if rows != [] {
      OwnKeysPermutation(rows[0]);
      ParsedNonNamePermutation(OwnKeys(rows[0]), Names(rows[0]));
    }
  }

  lemma {:induction false} ParseAllAppend(a: seq<string>, b: seq<string>)
    ensures ParseAll(a + b) == ParseAll(a) + ParseAll(b)
  {
    if a == [] {
      assert a + b == b;
    } else {
      assert (a + b)[0] == a[0] && (a + b)[1..] == a[1..] + b;
      ParseAllAppend(a[1..], b);
    }
  }

  /** Parsing the non-`name` keys of `a + b` parses those of `a`, then
      those of `b`. */
  lemma ParsedNonNameAppend(a: seq<string>, b: seq<string>)
    ensures ParseAll(NonNameKeys(a + b)) == ParseAll(NonNameKeys(a)) + ParseAll(NonNameKeys(b))
  {
    NonNameKeysAppend(a, b);
    ParseAllAppend(NonNameKeys(a), NonNameKeys(b));
  }

  /** Filtering out `name` and parsing the rest does not depend on the
      order of the keys, up to the order of the results. */
  lemma {:induction false} ParsedNonNamePermutation(a: seq<string>, b: seq<string>)
    requires multiset(a) == multiset(b)
    ensures multiset(ParseAll(NonNameKeys(a))) == multiset(ParseAll(NonNameKeys(b)))
    decreases |a|
  {
    if a == [] {
      assert |multiset(b)| == 0;
      assert b == [];
    } else {
      var x := a[0];
      assert x in multiset(b);
      var j :| 0 <= j < |b| && b[j] == x;
      var rest := b[..j] + b[j + 1..];
      RemoveMatching(a, b, j);
      ParsedNonNamePermutation(a[1..], rest);
      var fx, fa, f1, f2 := ParseAll(NonNameKeys([x])), ParseAll(NonNameKeys(a[1..])),
        ParseAll(NonNameKeys(b[..j])), ParseAll(NonNameKeys(b[j + 1..]));
      ParsedNonNameAppend([x], a[1..]);
      assert ParseAll(NonNameKeys(a)) == fx + fa;
      ParsedNonNameAppend(b[..j] + [x], b[j + 1..]);
      ParsedNonNameAppend(b[..j], [x]);
      assert ParseAll(NonNameKeys(b)) == f1 + fx + f2;
      ParsedNonNameAppend(b[..j], b[j + 1..]);
      assert multiset(fa) == multiset(f1 + f2);
      MoveToFront(fx, fa, f1, f2);
    }
  }

  /** Taking the first element off `a` and a matching one off `b` keeps
      the two multisets equal. */
  lemma RemoveMatching(a: seq<string>, b: seq<string>, j: nat)
    requires a != [] && j < |b| && b[j] == a[0] && multiset(a) == multiset(b)
    ensures multiset(a[1..]) == multiset(b[..j] + b[j + 1..])
    ensures a == [a[0]] + a[1..] && b == (b[..j] + [b[j]]) + b[j + 1..]
  {
    assert a == [a[0]] + a[1..];
    assert multiset(a) == multiset{a[0]} + multiset(a[1..]);
    assert b == b[..j] + [b[j]] + b[j + 1..];
    assert multiset(b) == multiset(b[..j]) + multiset{b[j]} + multiset(b[j + 1..]);
    var rest := b[..j] + b[j + 1..];
    assert multiset(rest) == multiset(b[..j]) + multiset(b[j + 1..]);
    forall e ensures multiset(a[1..])[e] == multiset(rest)[e] {
      assert multiset(a)[e] == multiset{a[0]}[e] + multiset(a[1..])[e];
      assert multiset(b)[e] == multiset{a[0]}[e] + multiset(rest)[e];
    }
  }

  /** Putting `x` in front of one of two permutations of each other, and
      in the middle of the other, keeps them permutations. */
  lemma MoveToFront(x: seq<Num>, a: seq<Num>, b1: seq<Num>, b2: seq<Num>)
    requires multiset(a) == multiset(b1 + b2)
    ensures multiset(x + a) == multiset(b1 + x + b2)
  {
    assert multiset(b1 + x + b2) == multiset(b1) + multiset(x) + multiset(b2);
  }

  lemma {:induction false} IndexNamesWithoutName(ks: seq<string>)
    requires AllIndices(ks)
    ensures NonNameKeys(ks) == ks
  {
    if ks != [] {
      assert IsArrayIndex(ks[0]);
      assert ks[0] != NameColumn by { assert ks[0][0] != 'n'; }
      assert AllIndices(ks[1..]) by {
        forall i | 0 <= i < |ks| - 1 ensures IsArrayIndex(ks[1..][i]) {
          assert ks[1..][i] == ks[i + 1];
        }
      }
      IndexNamesWithoutName(ks[1..]);
    }
  }

  lemma {:induction false} OnlyNameLeft(ks: seq<string>)
    requires forall k :: k in ks ==> k == NameColumn
    ensures NonNameKeys(ks) == []
  {
    if ks != [] {
      assert ks[0] in ks;
      assert forall k :: k in ks[1..] ==> k in ks;
      OnlyNameLeft(ks[1..]);
    }
  }

  lemma {:induction false} OtherNamesAreName(ks: seq<string>)
    requires forall k :: k in ks && k != NameColumn ==> IsArrayIndex(k)
    ensures forall k :: k in OtherNames(ks) ==> k == NameColumn
  {
    if ks != [] {
      assert forall k :: k in ks[1..] ==> k in ks;
      OtherNamesAreName(ks[1..]);
    }
  }

  lemma {:induction false} NonNameKeysAppend(a: seq<string>, b: seq<string>)
    ensures NonNameKeys(a + b) == NonNameKeys(a) + NonNameKeys(b)
  {
    if a == [] {
      assert a + b == b;
    } else {
      assert (a + b)[0] == a[0] && (a + b)[1..] == a[1..] + b;
      NonNameKeysAppend(a[1..], b);
    }
  }

  /** With every column but `name` an array index, the keys `extractYears`
      parses are exactly the array-index names, sorted. */
  lemma YearKeysSorted(row: Row)
    requires forall k :: k in Names(row) && k != NameColumn ==> IsArrayIndex(k)
    ensures NonNameKeys(OwnKeys(row)) == SortIndices(IndexNames(Names(row)))
    ensures AllIndices(SortIndices(IndexNames(Names(row))))
  {
    var names := Names(row);
    var sorted := SortIndices(IndexNames(names));
    assert AllIndices(sorted) by {
      forall i | 0 <= i < |sorted| ensures IsArrayIndex(sorted[i]) {
        assert sorted[i] in multiset(sorted);
        assert sorted[i] in IndexNames(names);
      }
    }
    OtherNamesAreName(names);
    OnlyNameLeft(OtherNames(names));
    NonNameKeysAppend(sorted, OtherNames(names));
    IndexNamesWithoutName(sorted);
  }

  /** When every column other than `name` is headed by the canonical form of
      a year, the years come out as integers in ascending order: `Object.keys`
      lists array-index names in numeric order. */
  lemma YearsAscending(rows: seq<Row>)
    requires rows != []
    requires forall k :: k in Names(rows[0]) && k != NameColumn ==> IsArrayIndex(k)
    ensures var years := ExtractYears(rows).value;
      && (forall i :: 0 <= i < |years| ==> years[i].Int? && years[i].value >= 0)
      && (forall i :: 0 <= i < |years| - 1 ==> years[i].value <= years[i + 1].value)
  {
    YearKeysSorted(rows[0]);
    var sorted := SortIndices(IndexNames(Names(rows[0])));
    var years := ExtractYears(rows).value;
    assert years == ParseAll(sorted);
    forall i | 0 <= i < |years|
      ensures years[i] == Int(IndexValue(sorted[i]))
    {
      assert IsArrayIndex(sorted[i]);
      assert years[i] == ParseInt(sorted[i]);
    }
  }

  // ---------------------------------------------------------------------
  // prepareCensusData, as specification functions

  /** `parseInt(row[year], 10)`: the year indexes the row by its string
      form; a missing column is `undefined`, which parses as NaN
      (`UndefinedIsNaN`). */
  function Cell(row: Row, year: Num): (r: Num)
    ensures ToString(year) !in Names(row) ==> r == NaN
  {
    match Get(row, ToString(year))
    case Some(text) => ParseInt(text)
    case None => UndefinedIsNaN(); ParseInt(Undefined)
  }

  /** `parseInt(undefined, 10)` reads the string "undefined": NaN. */
  lemma UndefinedIsNaN()
    ensures ParseInt(Undefined) == NaN
  {
    assert TrimStart(Undefined) == Undefined;
    assert DigitRun(Undefined) == 0;
  }

  /** `id_judete[row.name]`; a missing name or an unmapped one is
      `undefined`, which a d3 map stores under the key "undefined". */
  function Code(row: Row, ids: IdTable): (c: string)
    ensures c == Undefined || c in ids.Values
  {
    var name := match Get(row, NameColumn) case Some(n) => n case None => Undefined;
    if name in ids then ids[name] else Undefined
  }

  /** The `datum` map built for one row: every year to its parsed cell. */
  function RowDatum(row: Row, years: seq<Num>): Datum {
    map y | y in years :: Cell(row, y)
  }

  /** `if (value > max_population) max_population = value`; NaN compares
      false, so it never raises the maximum. */
  function Raise(m: int, value: Num): int {
    if value.Int? && value.value > m then value.value else m
  }

  /** The running maximum after one row's inner loop. */
  function RowMax(m: int, row: Row, years: seq<Num>): (r: int)
    ensures r >= m
    decreases |years|
  {
    if years == [] then m else RowMax(Raise(m, Cell(row, years[0])), row, years[1..])
  }

  /** The running maximum after the outer loop over the rows. */
  function TableMax(m: int, rows: seq<Row>, years: seq<Num>): (r: int)
    ensures r >= m
    decreases |rows|
  {
    if rows == [] then m else TableMax(RowMax(m, rows[0], years), rows[1..], years)
  }

  /** `censusData` after `censusData.set(countyCode, datum)` for every row in
      turn. */
  function Table(data: CensusData, rows: seq<Row>, ids: IdTable, years: seq<Num>): (t: CensusData)
    ensures data.Keys <= t.Keys
    decreases |rows|
  {
    if rows == [] then data
    else Table(data[Code(rows[0], ids) := RowDatum(rows[0], years)], rows[1..], ids, years)
  }

  /** `getPopulation`: the two-level lookup. Calling `.get` on the result of
      an absent county throws a TypeError (`NoCounty`); an absent year is
      `undefined` (`NoYear`). */
  datatype Lookup = NoCounty | NoYear | Found(value: Num)

  function GetPopulation(data: CensusData, code: string, year: Num): (r: Lookup)
    ensures r.NoCounty? <==> code !in data
    ensures r.NoYear? <==> code in data && year !in data[code]
    ensures r.Found? ==> r.value == data[code][year]
  {
    if code !in data then NoCounty
    else if year !in data[code] then NoYear
    else Found(data[code][year])
  }

  // ---------------------------------------------------------------------
  // The maximum

  lemma {:induction false} RowMaxIsLeastBound(m: int, row: Row, years: seq<Num>)
    ensures RowMax(m, row, years) >= m
    ensures forall y :: y in years && Cell(row, y).Int? ==> Cell(row, y).value <= RowMax(m, row, years)
    ensures RowMax(m, row, years) == m
         || exists y :: y in years && Cell(row, y) == Int(RowMax(m, row, years))
    decreases |years|
  {
    if years != [] {
      var m' := Raise(m, Cell(row, years[0]));
      RowMaxIsLeastBound(m', row, years[1..]);
      assert forall y :: y in years ==> y == years[0] || y in years[1..];
    }
  }

  /** The value `prepareCensusData` returns is at least its starting value
      and every integer cell of every row, and is either the starting value
      or one of those cells: the maximum. NaN cells play no part. */
  lemma {:induction false} TableMaxIsLeastBound(m: int, rows: seq<Row>, years: seq<Num>)
    ensures TableMax(m, rows, years) >= m
    ensures forall r, y :: r in rows && y in years && Cell(r, y).Int? ==>
      Cell(r, y).value <= TableMax(m, rows, years)
    ensures TableMax(m, rows, years) == m
         || exists r, y :: r in rows && y in years && Cell(r, y) == Int(TableMax(m, rows, years))
    decreases |rows|
  {
    if rows != [] {
      var m' := RowMax(m, rows[0], years);
      RowMaxIsLeastBound(m, rows[0], years);
      TableMaxIsLeastBound(m', rows[1..], years);
      assert forall r :: r in rows ==> r == rows[0] || r in rows[1..];
    }
  }

  // ---------------------------------------------------------------------
  // The table

  /** A county code no row maps to keeps its old entry, or stays absent. */
  lemma {:induction false} TableUntouched(data: CensusData, rows: seq<Row>, ids: IdTable, years: seq<Num>, c: string)
    requires forall r :: r in rows ==> Code(r, ids) != c
    ensures c in Table(data, rows, ids, years) <==> c in data
    ensures c in data ==> Table(data, rows, ids, years)[c] == data[c]
    decreases |rows|
  {
    if rows != [] {
      TableUntouched(data[Code(rows[0], ids) := RowDatum(rows[0], years)], rows[1..], ids, years, c);
    }
  }

  /** The last row with a given county code decides that county's entry:
      a later row overwrites an earlier one. */
  lemma {:induction false} TableLastRowWins(data: CensusData, rows: seq<Row>, ids: IdTable, years: seq<Num>, i: nat)
    requires i < |rows|
    requires forall j :: i < j < |rows| ==> Code(rows[j], ids) != Code(rows[i], ids)
    ensures Code(rows[i], ids) in Table(data, rows, ids, years)
    ensures Table(data, rows, ids, years)[Code(rows[i], ids)] == RowDatum(rows[i], years)
    decreases |rows|
  {
    var data' := data[Code(rows[0], ids) := RowDatum(rows[0], years)];
    if i == 0 {
      forall r | r in rows[1..] ensures Code(r, ids) != Code(rows[0], ids) {
        var j :| 0 <= j < |rows[1..]| && rows[1..][j] == r;
        assert rows[j + 1] == r;
      }
      TableUntouched(data', rows[1..], ids, years, Code(rows[0], ids));
    } else {
      var tail := rows[1..];
      assert forall j :: 0 <= j < |tail| ==> tail[j] == rows[j + 1];
      TableLastRowWins(data', tail, ids, years, i - 1);
    }
  }

  /** The keys after preparation: the old ones and every row's code. */
  lemma {:induction false} TableKeys(data: CensusData, rows: seq<Row>, ids: IdTable, years: seq<Num>)
    ensures Table(data, rows, ids, years).Keys == data.Keys + set r | r in rows :: Code(r, ids)
    decreases |rows|
  {
    if rows != [] {
      TableKeys(data[Code(rows[0], ids) := RowDatum(rows[0], years)], rows[1..], ids, years);
      assert forall r :: r in rows <==> r == rows[0] || r in rows[1..];
    }
  }

  /** Every row's county has an entry for exactly the years in `years`. */
  lemma {:induction false} TableCoversYears(data: CensusData, rows: seq<Row>, ids: IdTable, years: seq<Num>)
    ensures forall r :: r in rows ==>
      Code(r, ids) in Table(data, rows, ids, years)
      && Table(data, rows, ids, years)[Code(r, ids)].Keys == set y | y in years
    decreases |rows|
  {
    if rows != [] {
      var data' := data[Code(rows[0], ids) := RowDatum(rows[0], years)];
      TableCoversYears(data', rows[1..], ids, years);
      var c := Code(rows[0], ids);
      if forall r :: r in rows[1..] ==> Code(r, ids) != c {
        TableUntouched(data', rows[1..], ids, years, c);
      }
    }
  }

  /** Every entry is either the old one or the datum of some row. */
  lemma {:induction false} TableEntryOrigin(data: CensusData, rows: seq<Row>, ids: IdTable, years: seq<Num>, c: string)
    requires c in Table(data, rows, ids, years)
    ensures (c in data && Table(data, rows, ids, years)[c] == data[c])
         || exists r :: r in rows && Code(r, ids) == c && Table(data, rows, ids, years)[c] == RowDatum(r, years)
    decreases |rows|
  {
    if rows != [] {
      var data' := data[Code(rows[0], ids) := RowDatum(rows[0], years)];
      TableEntryOrigin(data', rows[1..], ids, years, c);
      assert forall r :: r in rows[1..] ==> r in rows;
    }
  }

  /** Starting from an empty `censusData`, every integer population stored
      is at most the returned maximum, and the maximum is at least 0. */
  lemma StoredBelowMax(rows: seq<Row>, ids: IdTable, years: seq<Num>)
    ensures TableMax(0, rows, years) >= 0
    ensures var t := Table(map[], rows, ids, years);
      forall c, y :: c in t && y in t[c] && t[c][y].Int? ==> t[c][y].value <= TableMax(0, rows, years)
  {
    var t: CensusData := Table(map[], rows, ids, years);
    TableMaxIsLeastBound(0, rows, years);
    forall c: string, y: Num | c in t && y in t[c] && t[c][y].Int?
      ensures t[c][y].value <= TableMax(0, rows, years)
    {
      TableEntryOrigin(map[], rows, ids, years, c);
    }
  }

  /** When no two rows share a county code, the maximum is 0 or a population
      that is actually stored. */
  lemma MaxIsStoredWhenCodesDistinct(rows: seq<Row>, ids: IdTable, years: seq<Num>)
    requires forall i, j :: 0 <= i < j < |rows| ==> Code(rows[i], ids) != Code(rows[j], ids)
    ensures var t := Table(map[], rows, ids, years);
      var m := TableMax(0, rows, years);
      m == 0 || exists c, y :: c in t && y in t[c] && t[c][y] == Int(m)
  {
    var t := Table(map[], rows, ids, years);
    var m := TableMax(0, rows, years);
    TableMaxIsLeastBound(0, rows, years);
    if m != 0 {
      var r, y :| r in rows && y in years && Cell(r, y) == Int(m);
      var i :| 0 <= i < |rows| && rows[i] == r;
      TableLastRowWins(map[], rows, ids, years, i);
      assert t[Code(r, ids)][y] == Int(m);
    }
  }

  lemma TwoRowsMax(r1: Row, r2: Row, y: Num, p: int)
    requires Cell(r1, y) == Int(p) && p > 0
    requires Cell(r2, y).Int? ==> Cell(r2, y).value < p
    ensures TableMax(0, [r1, r2], [y]) == p
  {
    var ys := [y];
    assert ys[1..] == [];
    assert RowMax(0, r1, ys) == RowMax(p, r1, []) == p;
    assert RowMax(p, r2, ys) == RowMax(Raise(p, Cell(r2, y)), r2, []) == p;
    assert [r1, r2][1..] == [r2] && [r2][1..] == [];
    assert TableMax(0, [r1, r2], ys) == TableMax(p, [r2], ys) == TableMax(p, [], ys);
  }

  lemma TwoRowsSameCode(r1: Row, r2: Row, ids: IdTable, y: Num)
    requires Code(r1, ids) == Code(r2, ids)
    ensures var t := Table(map[], [r1, r2], ids, [y]);
      t.Keys == {Code(r2, ids)} && t[Code(r2, ids)] == RowDatum(r2, [y])
  {
    var ys := [y];
    TableLastRowWins(map[], [r1, r2], ids, ys, 1);
    TableKeys(map[], [r1, r2], ids, ys);
    assert forall r :: r in [r1, r2] ==> r == r1 || r == r2;
  }

  /** With two rows mapped to the same county, the maximum still counts the
      overwritten row: when the earlier row holds the larger population, the
      maximum is a value stored nowhere in `censusData`. */
  lemma MaxFromOverwrittenRow(r1: Row, r2: Row, ids: IdTable, y: Num, p: int)
    requires Code(r1, ids) == Code(r2, ids)
    requires Cell(r1, y) == Int(p) && p > 0
    requires Cell(r2, y).Int? ==> Cell(r2, y).value < p
    ensures TableMax(0, [r1, r2], [y]) == p
    ensures var t := Table(map[], [r1, r2], ids, [y]);
      forall c, y' :: c in t && y' in t[c] ==> t[c][y'] != Int(p)
  {
    TwoRowsMax(r1, r2, y, p);
    OnlySecondRowStored(r1, r2, ids, y, p);
  }

  /** With two rows for the same county, no stored cell is a value the
      second row does not hold. */
  lemma OnlySecondRowStored(r1: Row, r2: Row, ids: IdTable, y: Num, p: int)
    requires Code(r1, ids) == Code(r2, ids)
    requires Cell(r2, y).Int? ==> Cell(r2, y).value < p
    ensures var t := Table(map[], [r1, r2], ids, [y]);
      forall c, y' :: c in t && y' in t[c] ==> t[c][y'] != Int(p)
  {
    TwoRowsSameCode(r1, r2, ids, y);
    var t := Table(map[], [r1, r2], ids, [y]);
    var d := RowDatum(r2, [y]);
    assert forall y' :: y' in d ==> y' == y && d[y'] == Cell(r2, y);
    assert forall c :: c in t ==> t[c] == d;
  }

  /** A year read from a canonical header finds its own column again:
      the cell is that column's text, parsed. */
  lemma HeaderYearReadsColumn(row: Row, k: string)
    requires IsCanonicalDigits(k)
    ensures Cell(row, ParseInt(k)) == match Get(row, k) case Some(t) => ParseInt(t) case None => ParseInt(Undefined)
  {
    ToStringOfCanonical(k);
    UndefinedIsNaN();
  }

  /** Looking up a prepared county and year gives back the row's parsed
      cell, for the last row with that county code. */
  lemma PopulationOfPreparedRow(data: CensusData, rows: seq<Row>, ids: IdTable, years: seq<Num>, i: nat, y: Num)
    requires i < |rows| && y in years
    requires forall j :: i < j < |rows| ==> Code(rows[j], ids) != Code(rows[i], ids)
    ensures GetPopulation(Table(data, rows, ids, years), Code(rows[i], ids), y) == Found(Cell(rows[i], y))
  {
    TableLastRowWins(data, rows, ids, years, i);
  }

  // ---------------------------------------------------------------------
  // The imperative code

  /** On the table `prepareCensusData` builds, `getPopulation` throws for
      exactly the codes no row maps to, and for a prepared county finds
      exactly the years in `years`. */
  lemma GetPopulationAfterPrepare(rows: seq<Row>, ids: IdTable, years: seq<Num>, c: string, y: Num)
    ensures var t := Table(map[], rows, ids, years);
      && (GetPopulation(t, c, y).NoCounty? <==> forall r :: r in rows ==> Code(r, ids) != c)
      && ((exists r :: r in rows && Code(r, ids) == c) ==> (GetPopulation(t, c, y).NoYear? <==> y !in years))
  {
    TableKeys(map[], rows, ids, years);
    TableCoversYears(map[], rows, ids, years);
  }

  lemma RowDatumStep(row: Row, years: seq<Num>, j: nat)
    requires j < |years|
    ensures RowDatum(row, years[..j + 1]) == RowDatum(row, years[..j])[years[j] := Cell(row, years[j])]
  {
    assert years[..j + 1] == years[..j] + [years[j]];
  }

  lemma RowMaxStep(m: int, row: Row, years: seq<Num>, j: nat)
    requires j < |years|
    ensures RowMax(m, row, years[j..]) == RowMax(Raise(m, Cell(row, years[j])), row, years[j + 1..])
  {
    assert years[j..][0] == years[j] && years[j..][1..] == years[j + 1..];
  }

  /** The body of `prepareCensusData`'s outer loop for one row: the inner
      loop over `years` builds the row's datum and raises the running maximum
      `m`. */
  method ReadRow(row: Row, years: seq<Num>, m: int) returns (datum: Datum, maxPopulation: int)
    ensures datum == RowDatum(row, years)
    ensures maxPopulation == RowMax(m, row, years)
  {
    datum := map[];
    maxPopulation := m;
    var j := 0;
    while j < |years|
      invariant 0 <= j <= |years|
      invariant datum == RowDatum(row, years[..j])
      invariant RowMax(maxPopulation, row, years[j..]) == RowMax(m, row, years)
    {
      var year := years[j];
      var value := Cell(row, year);
      RowDatumStep(row, years, j);
      datum := datum[year := value];
      RowMaxStep(maxPopulation, row, years, j);
      if value.Int? && value.value > maxPopulation {
        maxPopulation := value.value;
      }
      j := j + 1;
    }
    assert years[..j] == years;
  }

  lemma TableStep(data: CensusData, m: int, rows: seq<Row>, ids: IdTable, years: seq<Num>, i: nat)
    requires i < |rows|
    ensures Table(data, rows[i..], ids, years)
      == Table(data[Code(rows[i], ids) := RowDatum(rows[i], years)], rows[i + 1..], ids, years)
    ensures TableMax(m, rows[i..], years) == TableMax(RowMax(m, rows[i], years), rows[i + 1..], years)
  {
    assert rows[i..][0] == rows[i] && rows[i..][1..] == rows[i + 1..];
  }

  /** The global state the census code updates: `years` and `censusData`. */
  class CensusModel {
    var years: seq<Num>
    var censusData: CensusData

    constructor ()
      ensures years == [] && censusData == map[]
    {
      years := [];
      censusData := map[];
    }

    /** `prepareCensusData`: one pass over the rows, each read by `ReadRow`,
        storing each row's datum under its county code. */
    method Prepare(rows: seq<Row>, ids: IdTable) returns (maxPopulation: int)
      modifies this
      ensures years == old(years)
      ensures censusData == Table(old(censusData), rows, ids, years)
      ensures maxPopulation == TableMax(0, rows, years)
    {
      ghost var initial := censusData;
      var ys := years;
      maxPopulation := 0;
      var i := 0;
      while i < |rows|
        invariant 0 <= i <= |rows|
        invariant years == ys
        invariant Table(censusData, rows[i..], ids, ys) == Table(initial, rows, ids, ys)
        invariant TableMax(maxPopulation, rows[i..], ys) == TableMax(0, rows, ys)
      {
        var datum;
        TableStep(censusData, maxPopulation, rows, ids, ys, i);
        datum, maxPopulation := ReadRow(rows[i], ys, maxPopulation);
        censusData := censusData[Code(rows[i], ids) := datum];
        i := i + 1;
      }
    }

    /** Lines 202-203 of the load callback: `years = extractYears(…)`, then
        `prepareCensusData`. With no rows, `extractYears` throws (`None`) and
        nothing changes. */
    method Build(rows: seq<Row>, ids: IdTable) returns (maxPopulation: Option<int>)
      modifies this
      ensures maxPopulation.None? <==> rows == []
      ensures rows == [] ==> years == old(years) && censusData == old(censusData)
      ensures rows != [] ==>
        && years == ExtractYears(rows).value
        && censusData == Table(old(censusData), rows, ids, years)
        && maxPopulation.value == TableMax(0, rows, years)
    {
      var extracted := ExtractYears(rows);
      if extracted.None? {
        return None;
      }
      years := extracted.value;
      var m := Prepare(rows, ids);
      maxPopulation := Some(m);
    }
  }
}

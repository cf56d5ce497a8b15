/**
 The location seeder over its tables. A method whose `requires` names a constraint is a statement Postgres would
 refuse otherwise; every reference of a city is good after every statement.
 */
module LocationsSeeder {
  import opened Common
  import opened Locations

  const BATCH_SIZE := 1000

  // ---------------------------------------------------------------- rows from the source file

  /** Array.sort by a numeric key. */
  function SortBy<T(!new)>(s: seq<T>, key: T -> int): (r: seq<T>)
    ensures |r| == |s| && forall x :: x in r <==> x in s
  {
    if |s| == 0 then []
    else
      assert s == s[..|s| - 1] + [s[|s| - 1]];
      Insert(SortBy(s[..|s| - 1], key), s[|s| - 1], key)
  }

  function Insert<T(!new)>(s: seq<T>, x: T, key: T -> int): (r: seq<T>)
    ensures |r| == |s| + 1 && forall y :: y in r <==> y in s || y == x
  {
    if |s| == 0 || key(s[|s| - 1]) <= key(x) then s + [x]
    else
      assert s == s[..|s| - 1] + [s[|s| - 1]];
      Insert(s[..|s| - 1], x, key) + [s[|s| - 1]]
  }

  ghost predicate Rising<T(!new)>(s: seq<T>, key: T -> int) {
    forall i, j :: 0 <= i < j < |s| ==> key(s[i]) < key(s[j])
  }

  ghost predicate DistinctBy<T(!new)>(s: seq<T>, key: T -> int) {
    forall i, j :: 0 <= i < j < |s| ==> key(s[i]) != key(s[j])
  }

  lemma {:induction false} InsertKeepsOrder<T(!new)>(s: seq<T>, x: T, key: T -> int)
    requires Rising(s, key) && forall y :: y in s ==> key(y) != key(x)
    ensures Rising(Insert(s, x, key), key)
  {
    if 0 < |s| && key(x) < key(s[|s| - 1]) {
      var before, last := s[..|s| - 1], s[|s| - 1];
      InsertKeepsOrder(before, x, key);
      var r := Insert(before, x, key);
      forall i | 0 <= i < |r|
        ensures key(r[i]) < key(last)
      {
        assert r[i] in r;
        if r[i] in before {
          var j :| 0 <= j < |before| && before[j] == r[i];
          assert s[j] == r[i];
        }
      }
    } else if 0 < |s| {
      assert s[|s| - 1] in s;
    }
  }

  lemma {:induction false} SortAscends<T(!new)>(s: seq<T>, key: T -> int)
    requires DistinctBy(s, key)
    ensures Rising(SortBy(s, key), key)
  {
    if |s| > 0 {
      var before, last := s[..|s| - 1], s[|s| - 1];
      SortAscends(before, key);
      forall y | y in before
        ensures key(y) != key(last)
      {
        var i :| 0 <= i < |before| && before[i] == y;
        assert key(s[i]) != key(s[|s| - 1]);
      }
      InsertKeepsOrder(SortBy(before, key), last, key);
    }
  }

  function ProvinceRowsIn(source: seq<SourceProvince>, norm: string -> string): seq<ProvinceRow> {
    seq(|source|, i requires 0 <= i < |source| => ProvinceRow(source[i].id, norm(source[i].name)))
  }

  function CityRowsOf(p: SourceProvince, norm: string -> string): seq<CityRow> {
    seq(|p.cities|, j requires 0 <= j < |p.cities| => CityRow(p.cities[j].id, City(norm(p.cities[j].name), p.id)))
  }

  function CityRowsIn(source: seq<SourceProvince>, norm: string -> string): seq<CityRow> {
    if |source| == 0 then []
    else CityRowsIn(source[..|source| - 1], norm) + CityRowsOf(source[|source| - 1], norm)
  }

  function ProvinceId(r: ProvinceRow): int {
    r.id
  }

  function CityId(r: CityRow): int {
    r.id
  }

  function ProvinceRows(source: seq<SourceProvince>, norm: string -> string): seq<ProvinceRow> {
    SortBy(ProvinceRowsIn(source, norm), ProvinceId)
  }

  function CityRows(source: seq<SourceProvince>, norm: string -> string): seq<CityRow> {
    SortBy(CityRowsIn(source, norm), CityId)
  }

  /** Two provinces, or two cities of a province, share a normalized name. */
  ghost predicate RepeatsName(source: seq<SourceProvince>, norm: string -> string) {
    || (exists i, j :: 0 <= i < j < |source| && norm(source[i].name) == norm(source[j].name))
    || (exists i :: 0 <= i < |source| && RepeatsCity(source[i], norm))
  }

  ghost predicate RepeatsCity(p: SourceProvince, norm: string -> string) {
    exists i, j :: 0 <= i < j < |p.cities| && norm(p.cities[i].name) == norm(p.cities[j].name)
  }

  /** The rows of one province's cities, unless two share a name. */
  method CitiesOf(province: SourceProvince, norm: string -> string) returns (r: Option<seq<CityRow>>)
    ensures r.None? <==> RepeatsCity(province, norm)
    ensures r.Some? ==> r.value == CityRowsOf(province, norm)
  {
    var rows: seq<CityRow> := [];
    var cityNames: set<string> := {};
    for k := 0 to |province.cities|
      invariant rows == CityRowsOf(province, norm)[..k]
      invariant forall c :: c in cityNames <==> exists i :: 0 <= i < k && norm(province.cities[i].name) == c
      invariant forall i, j :: 0 <= i < j < k ==> norm(province.cities[i].name) != norm(province.cities[j].name)
    {
      var cityName := norm(province.cities[k].name);
      if cityName in cityNames {
        return None;
      }
      cityNames := cityNames + {cityName};
      rows := rows + [CityRow(province.cities[k].id, City(cityName, province.id))];
    }
    return Some(rows);
  }

  /** `names` are the names of the first `n` provinces, all different. */
  ghost predicate NamesSoFar(source: seq<SourceProvince>, norm: string -> string, n: nat, names: set<string>)
    requires n <= |source|
  {
    && (forall name :: name in names <==> exists i :: 0 <= i < n && norm(source[i].name) == name)
    && (forall i, j :: 0 <= i < j < n ==> norm(source[i].name) != norm(source[j].name))
  }

  lemma OneMoreName(source: seq<SourceProvince>, norm: string -> string, n: nat, names: set<string>)
    requires n < |source| && NamesSoFar(source, norm, n, names)
    ensures norm(source[n].name) in names ==> RepeatsName(source, norm)
    ensures norm(source[n].name) !in names ==> NamesSoFar(source, norm, n + 1, names + {norm(source[n].name)})
  {
  }

  lemma OneMoreProvince(source: seq<SourceProvince>, norm: string -> string, n: nat)
    requires n < |source|
    ensures CityRowsIn(source[..n + 1], norm) == CityRowsIn(source[..n], norm) + CityRowsOf(source[n], norm)
  {
    assert source[..n + 1][..n] == source[..n];
  }

  /** The rows in source order, unless a name repeats. */
  method Gather(source: seq<SourceProvince>, norm: string -> string)
    returns (ok: bool, provinceRows: seq<ProvinceRow>, cityRows: seq<CityRow>)
    ensures ok <==> !RepeatsName(source, norm)
    ensures ok ==> provinceRows == ProvinceRowsIn(source, norm) && cityRows == CityRowsIn(source, norm)
  {
    provinceRows, cityRows := [], [];
    var provinceNames: set<string> := {};
    for n := 0 to |source|
      invariant provinceRows == ProvinceRowsIn(source, norm)[..n] && cityRows == CityRowsIn(source[..n], norm)
      invariant NamesSoFar(source, norm, n, provinceNames)
      invariant forall i :: 0 <= i < n ==> !RepeatsCity(source[i], norm)
    {
      var name := norm(source[n].name);
      OneMoreName(source, norm, n, provinceNames);
      OneMoreProvince(source, norm, n);
      if name in provinceNames {
        return false, [], [];
      }
      provinceNames := provinceNames + {name};
      provinceRows := provinceRows + [ProvinceRow(source[n].id, name)];
      var cities := CitiesOf(source[n], norm);
      if cities.None? {
        return false, [], [];
      }
      cityRows := cityRows + cities.value;
    }
    assert source[..|source|] == source;
    ok := true;
  }

  method ToRows(source: seq<SourceProvince>, norm: string -> string) returns (r: Result<(seq<ProvinceRow>, seq<CityRow>), Error>)
    ensures r.Err? <==> RepeatsName(source, norm)
    ensures r.Err? ==> r.error == DuplicateName
    ensures r.Ok? ==> r.value == (ProvinceRows(source, norm), CityRows(source, norm))
  {
    var ok, provinceRows, cityRows := Gather(source, norm);
    if !ok {
      return Err(DuplicateName);
    }
    return Ok((SortBy(provinceRows, ProvinceId), SortBy(cityRows, CityId)));
  }

  // ---------------------------------------------------------------- batches

  function Flat<T>(batches: seq<seq<T>>): seq<T> {
    if |batches| == 0 then [] else Flat(batches[..|batches| - 1]) + batches[|batches| - 1]
  }

  /** Full batches and a last one that is not empty; together they are the items, in order. */
  method Chunk<T>(items: seq<T>, size: nat) returns (out: seq<seq<T>>)
    requires size > 0
    ensures Flat(out) == items
    ensures forall k :: 0 <= k < |out| ==> 0 < |out[k]| <= size && (k < |out| - 1 ==> |out[k]| == size)
  {
    out := [];
    var i := 0;
    while i < |items|
      invariant 0 <= i && Flat(out) == items[..Min(i, |items|)]
      invariant i < |items| ==> forall k :: 0 <= k < |out| ==> |out[k]| == size
      invariant forall k :: 0 <= k < |out| ==> 0 < |out[k]| <= size && (k < |out| - 1 ==> |out[k]| == size)
    {
      var batch := items[i..Min(i + size, |items|)];
      assert items[..i] + batch == items[..Min(i + size, |items|)];
      assert (out + [batch])[..|out|] == out;
      out := out + [batch];
      i := i + size;
    }
  }

  // ---------------------------------------------------------------- statements on values

  /** Province rows written by id. */
  function Written(provinces: map<int, string>, rows: seq<ProvinceRow>): map<int, string> {
    if |rows| == 0 then provinces
    else
      var last := rows[|rows| - 1];
      Written(provinces, rows[..|rows| - 1])[last.id := last.name]
  }

  /** A city row written by id, unless another city of the province has the name. */
  ghost function WithCity(cities: map<int, City>, row: CityRow): Option<map<int, City>> {
    if exists c :: c in cities && c != row.id && cities[c] == row.city then None else Some(cities[row.id := row.city])
  }

  ghost function WithCities(cities: map<int, City>, rows: seq<CityRow>): Option<map<int, City>> {
    if |rows| == 0 then Some(cities)
    else
      var before := WithCities(cities, rows[..|rows| - 1]);
      if before.None? then None else WithCity(before.value, rows[|rows| - 1])
  }

  lemma {:induction false} WrittenIs(provinces: map<int, string>, rows: seq<ProvinceRow>)
    requires DistinctIds(rows)
    ensures forall id :: id in Written(provinces, rows) <==> id in provinces || HasId(rows, id)
    ensures forall r :: r in rows ==> r.id in Written(provinces, rows) && Written(provinces, rows)[r.id] == r.name
    ensures forall id :: id in provinces && !HasId(rows, id) ==> Written(provinces, rows)[id] == provinces[id]
  {
    if |rows| > 0 {
      var before, last := rows[..|rows| - 1], rows[|rows| - 1];
      WrittenIs(provinces, before);
      assert rows == before + [last];
      forall id
        ensures HasId(rows, id) <==> HasId(before, id) || id == last.id
      {
        assert HasId(before, id) || id == last.id ==> exists r :: r in rows && r.id == id;
      }
      forall r | r in before
        ensures r.id != last.id
      {
        var i :| 0 <= i < |before| && before[i] == r;
        assert rows[i].id != rows[|rows| - 1].id;
      }
    }
  }

  /** After the city rows are written each is there, and cities the source does not mention are as before. */
  lemma {:induction false} WithCitiesIs(cities: map<int, City>, rows: seq<CityRow>)
    requires forall i, j :: 0 <= i < j < |rows| ==> rows[i].id != rows[j].id
    requires WithCities(cities, rows).Some?
    ensures var after := WithCities(cities, rows).value;
            && (forall r :: r in rows ==> r.id in after && after[r.id] == r.city)
            && (forall c :: c in cities ==> c in after && ((forall r :: r in rows ==> r.id != c) ==> after[c] == cities[c]))
            && (forall c :: c in after ==> c in cities || exists r :: r in rows && r.id == c)
  {
    if |rows| > 0 {
      var before, last := rows[..|rows| - 1], rows[|rows| - 1];
      WithCitiesIs(cities, before);
      assert rows == before + [last];
      forall r | r in before
        ensures r.id != last.id
      {
        var i :| 0 <= i < |before| && before[i] == r;
        assert rows[i].id != rows[|rows| - 1].id;
      }
      assert last in rows;
    }
  }

  // ---------------------------------------------------------------- constraints

  ghost predicate UniqueNames(provinces: map<int, string>) {
    forall a, b :: a in provinces && b in provinces && a != b ==> provinces[a] != provinces[b]
  }

  ghost predicate UniqueCities(cities: map<int, City>) {
    forall a, b :: a in cities && b in cities && a != b ==> cities[a] != cities[b]
  }

  ghost predicate NoneDangling(provinces: map<int, string>, cities: map<int, City>) {
    forall c :: c in cities ==> cities[c].provinceId in provinces
  }

  ghost predicate NoCityAt(cities: map<int, City>, id: int) {
    forall c :: c in cities ==> cities[c].provinceId != id
  }

  // ---------------------------------------------------------------- what seeding leaves

  function ManagedIds(provinces: map<int, string>, rows: seq<ProvinceRow>, norm: string -> string): set<int> {
    set id | id in provinces && Managed(provinces, rows, norm, id)
  }

  /** The unmanaged provinces as they were, and the source's. */
  function Seeded(provinces: map<int, string>, rows: seq<ProvinceRow>, norm: string -> string): map<int, string> {
    Written(provinces - ManagedIds(provinces, rows, norm), rows)
  }

  function Repointed(cities: map<int, City>, shifts: seq<Shift>): map<int, City> {
    map c | c in cities :: cities[c].(provinceId := Moved(cities[c].provinceId, shifts))
  }

  function RepointedAddresses(addresses: map<int, int>, shifts: seq<Shift>): map<int, int> {
    map a | a in addresses :: Moved(addresses[a], shifts)
  }

  function TemporaryIds(base: int, n: nat): (ids: set<int>)
    ensures forall id :: id in ids <==> base < id <= base + n
  {
    if n == 0 then {} else TemporaryIds(base, n - 1) + {base + n}
  }

  /** Every city under the target id of its province. */
  ghost function Retargeted(cities: map<int, City>, provinces: map<int, string>, rows: seq<ProvinceRow>, norm: string -> string)
    : map<int, City>
  {
    map c | c in cities :: cities[c].(provinceId := Target(provinces, rows, norm, cities[c].provinceId))
  }

  /** What the seeder checked before it reconciles ids. */
  ghost predicate Ready(provinces: map<int, string>, cities: map<int, City>, rows: seq<ProvinceRow>, norm: string -> string,
                        pairs: seq<Pair>)
  {
    && UniqueNames(provinces) && UniqueCities(cities) && NoneDangling(provinces, cities)
    && DistinctIds(rows) && DistinctNames(rows) && Normalized(rows, norm)
    && Pairing(provinces, rows, norm, pairs) && !TakenId(provinces, rows, norm)
  }

  /** No province the source does not manage has a name of the source. */
  lemma UnmanagedNamesDiffer(provinces: map<int, string>, rows: seq<ProvinceRow>, norm: string -> string, id: int)
    requires Normalized(rows, norm) && id in provinces && !Managed(provinces, rows, norm, id)
    ensures forall r :: r in rows ==> r.name != provinces[id]
  {
  }

  lemma SeededIs(provinces: map<int, string>, rows: seq<ProvinceRow>, norm: string -> string)
    requires DistinctIds(rows)
    ensures var after := Seeded(provinces, rows, norm);
            && (forall r :: r in rows ==> r.id in after && after[r.id] == r.name)
            && (forall id :: id in after <==> HasId(rows, id) || (id in provinces && !Managed(provinces, rows, norm, id)))
            && (forall id :: id in provinces && !Managed(provinces, rows, norm, id) && !HasId(rows, id) ==>
                               after[id] == provinces[id])
  {
    WrittenIs(provinces - ManagedIds(provinces, rows, norm), rows);
  }

  /** Rows at their ids already: writing them over the table is the same as replacing the managed provinces. */
  lemma WrittenInPlace(provinces: map<int, string>, rows: seq<ProvinceRow>, norm: string -> string)
    requires DistinctIds(rows)
    requires forall id :: Managed(provinces, rows, norm, id) ==> HasId(rows, id)
    ensures Written(provinces, rows) == Seeded(provinces, rows, norm)
  {
    WrittenIs(provinces, rows);
    SeededIs(provinces, rows, norm);
    var a, b := Written(provinces, rows), Seeded(provinces, rows, norm);
    forall id
      ensures id in a <==> id in b
    {
      assert id in provinces && Managed(provinces, rows, norm, id) ==> HasId(rows, id);
    }
    forall id | id in a
      ensures a[id] == b[id]
    {
      if HasId(rows, id) {
        var r :| r in rows && r.id == id;
      }
    }
  }

  /** Writing rows and deleting others can be done in either order. */
  lemma {:induction false} WrittenThenDeleted(provinces: map<int, string>, rows: seq<ProvinceRow>, ids: set<int>)
    requires forall r :: r in rows ==> r.id !in ids
    ensures Written(provinces, rows) - ids == Written(provinces - ids, rows)
  {
    if |rows| > 0 {
      var before, last := rows[..|rows| - 1], rows[|rows| - 1];
      assert rows == before + [last];
      WrittenThenDeleted(provinces, before, ids);
      var m := Written(provinces, before);
      assert m[last.id := last.name] - ids == (m - ids)[last.id := last.name];
    }
  }

  /** Temporary rows come and go. */
  lemma WrittenThroughTemporaries(provinces: map<int, string>, rows: seq<ProvinceRow>, norm: string -> string,
                                  temporary: seq<ProvinceRow>, ids: set<int>)
    requires DistinctIds(temporary) && forall id :: id in ids <==> HasId(temporary, id)
    requires forall r :: r in rows ==> r.id !in ids
    requires forall id :: id in provinces ==> id !in ids
    ensures Written(Written(provinces, temporary) - ManagedIds(provinces, rows, norm), rows) - ids == Seeded(provinces, rows, norm)
  {
    WrittenIs(provinces, temporary);
    var managed := ManagedIds(provinces, rows, norm);
    WrittenThenDeleted(Written(provinces, temporary) - managed, rows, ids);
    var a, b := Written(provinces, temporary) - managed - ids, provinces - managed;
    forall id
      ensures id in a <==> id in b
      ensures id in a ==> a[id] == provinces[id]
    {
      assert id in ids <==> HasId(temporary, id);
    }
    assert a == b;
  }

  /** The cities' way out and back is to their targets. */
  lemma RepointedTwice(cities: map<int, City>, provinces: map<int, string>, rows: seq<ProvinceRow>, norm: string -> string,
                       pairs: seq<Pair>, base: int)
    requires NoneDangling(provinces, cities)
    requires DistinctNames(rows) && Pairing(provinces, rows, norm, pairs) && Above(base, provinces, rows)
    ensures Repointed(Repointed(cities, Out(pairs, base)), Back(pairs, base)) == Retargeted(cities, provinces, rows, norm)
  {
    var once := Repointed(cities, Out(pairs, base));
    var twice, target := Repointed(once, Back(pairs, base)), Retargeted(cities, provinces, rows, norm);
    forall c | c in cities
      ensures twice[c] == target[c]
    {
      var v := cities[c].provinceId;
      ThereAndBack(provinces, rows, norm, pairs, base, v);
      assert once[c].provinceId == Moved(v, Out(pairs, base));
      assert twice[c].provinceId == Moved(once[c].provinceId, Back(pairs, base));
    }
  }

  /** While the managed provinces are away, no city refers to them or to a target id. */
  lemma OutOfTheWay(cities: map<int, City>, provinces: map<int, string>, rows: seq<ProvinceRow>, norm: string -> string,
                    pairs: seq<Pair>, base: int, id: int)
    requires Ready(provinces, cities, rows, norm, pairs) && Above(base, provinces, rows)
    ensures Managed(provinces, rows, norm, id) || HasId(rows, id) ==> NoCityAt(Repointed(cities, Out(pairs, base)), id)
  {
    forall c | c in cities {
      MovedOut(provinces, rows, norm, pairs, base, cities[c].provinceId);
    }
  }
}

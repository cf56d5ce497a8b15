/** What a successful seeding means for the tables. */
module LocationsTheorems {
  import opened Common
  import opened Locations
  import opened LocationsSeeder
  import opened LocationsDb

  /** A reference to a managed province leads, afterwards, to a province of the same normalized name. */
  lemma ReferencesKeepTheirProvince(provinces: map<int, string>, rows: seq<ProvinceRow>, norm: string -> string, v: int)
    requires DistinctIds(rows) && !TakenId(provinces, rows, norm) && v in provinces
    ensures var after := Seeded(provinces, rows, norm);
            var t := Target(provinces, rows, norm, v);
            && t in after
            && (Managed(provinces, rows, norm, v) ==> after[t] == norm(provinces[v]))
            && (!Managed(provinces, rows, norm, v) ==> t == v && after[v] == provinces[v])
  {
    SeededIs(provinces, rows, norm);
    assert HasId(rows, v) ==> Managed(provinces, rows, norm, v);
  }

  /** No city is lost, none changes its name, and two cities share a province afterwards only if they did before. */
  lemma CitiesStayTogether(cities: map<int, City>, provinces: map<int, string>, rows: seq<ProvinceRow>, norm: string -> string,
                           a: int, b: int)
    requires NoneDangling(provinces, cities) && a in cities && b in cities
    requires DistinctIds(rows) && DistinctNames(rows)
    requires !DuplicatesExist(provinces, rows, norm) && !TakenId(provinces, rows, norm)
    ensures var after := Retargeted(cities, provinces, rows, norm);
            && after.Keys == cities.Keys && after[a].name == cities[a].name
            && (after[a].provinceId == after[b].provinceId <==> cities[a].provinceId == cities[b].provinceId)
  {
    if cities[a].provinceId != cities[b].provinceId {
      TargetsDiffer(provinces, rows, norm, cities[a].provinceId, cities[b].provinceId);
    }
  }

  /** In the tables a seeding leaves, the source's provinces are the managed ones, and they are at their targets. */
  lemma SeededIsManaged(provinces: map<int, string>, rows: seq<ProvinceRow>, norm: string -> string, id: int)
    requires DistinctIds(rows) && DistinctNames(rows) && Normalized(rows, norm)
    ensures var after := Seeded(provinces, rows, norm);
            && (Managed(after, rows, norm, id) <==> HasId(rows, id))
            && (HasId(rows, id) ==> norm(after[id]) == after[id])
            && Target(after, rows, norm, id) == id
  {
    SeededIs(provinces, rows, norm);
    var after := Seeded(provinces, rows, norm);
    if HasId(rows, id) {
      var r :| r in rows && r.id == id;
      assert ProvinceRow(id, norm(after[id])) in rows;
      TargetIs(after, rows, norm, id, id);
    } else if id in after {
      assert !Managed(provinces, rows, norm, id) && after[id] == provinces[id];
    }
  }

  /** Seeding the same source again finds nothing to refuse and changes neither provinces nor references. */
  lemma SeedingAgainChangesNoProvince(provinces: map<int, string>, rows: seq<ProvinceRow>, norm: string -> string)
    requires DistinctIds(rows) && DistinctNames(rows) && Normalized(rows, norm)
    ensures var after := Seeded(provinces, rows, norm);
            && !DuplicatesExist(after, rows, norm) && !TakenId(after, rows, norm)
            && !NeedsReconciliation(after, rows, norm)
            && Seeded(after, rows, norm) == after
  {
    var after := Seeded(provinces, rows, norm);
    SeededIs(provinces, rows, norm);
    forall id {
      SeededIsManaged(provinces, rows, norm, id);
    }
    forall a, b | Managed(after, rows, norm, a) && Managed(after, rows, norm, b) && norm(after[a]) == norm(after[b])
      ensures a == b
    {
      TargetIs(after, rows, norm, a, a);
      TargetIs(after, rows, norm, b, b);
      TargetIs(after, rows, norm, a, b);
    }
    forall r | r in rows && r.id in after
      ensures Managed(after, rows, norm, r.id)
    {
      assert HasId(rows, r.id);
    }
    SeededIs(after, rows, norm);
    var again := Seeded(after, rows, norm);
    forall id
      ensures id in again <==> id in after
      ensures id in after ==> again[id] == after[id]
    {
      if HasId(rows, id) {
        var r :| r in rows && r.id == id;
      }
    }
    SameMap(again, after);
  }

  // ---------------------------------------------------------------- what was asked for is there

  /** `city` is the j-th city of the i-th province of the source, its name normalized. */
  ghost predicate IsSourceCity(source: seq<SourceProvince>, norm: string -> string, i: int, j: int, id: int, city: City) {
    && 0 <= i < |source| && 0 <= j < |source[i].cities| && source[i].cities[j].id == id
    && city.name == norm(source[i].cities[j].name) && city.provinceId == source[i].id
  }

  lemma {:induction false} RowOfCity(source: seq<SourceProvince>, norm: string -> string, i: nat, j: nat)
    requires i < |source| && j < |source[i].cities|
    ensures exists r :: r in CityRowsIn(source, norm) && IsSourceCity(source, norm, i, j, r.id, r.city)
  {
    var n := |source| - 1;
    if i < n {
      RowOfCity(source[..n], norm, i, j);
      var r :| r in CityRowsIn(source[..n], norm) && IsSourceCity(source[..n], norm, i, j, r.id, r.city);
      assert r in CityRowsIn(source, norm) && IsSourceCity(source, norm, i, j, r.id, r.city);
    } else {
      var r := CityRowsOf(source[n], norm)[j];
      assert r in CityRowsIn(source, norm) && IsSourceCity(source, norm, i, j, r.id, r.city);
    }
  }

  lemma {:induction false} CityOfRow(source: seq<SourceProvince>, norm: string -> string, r: CityRow)
    requires r in CityRowsIn(source, norm)
    ensures exists i, j :: IsSourceCity(source, norm, i, j, r.id, r.city)
  {
    var n := |source| - 1;
    if r in CityRowsIn(source[..n], norm) {
      CityOfRow(source[..n], norm, r);
      var i, j :| IsSourceCity(source[..n], norm, i, j, r.id, r.city);
      assert IsSourceCity(source, norm, i, j, r.id, r.city);
    } else {
      var j :| 0 <= j < |source[n].cities| && CityRowsOf(source[n], norm)[j] == r;
      assert IsSourceCity(source, norm, n, j, r.id, r.city);
    }
  }

  ghost predicate IdIsItsOwn(source: seq<SourceProvince>, i: nat, j: nat)
    requires i < |source| && j < |source[i].cities|
  {
    forall k, l | 0 <= k < |source| && 0 <= l < |source[k].cities| && source[k].cities[l].id == source[i].cities[j].id ::
      k == i && l == j
  }

  /** Every row's id is there afterwards, with what some row of that id says; other cities are as before. */
  lemma {:induction false} LastRowStays(cities: map<int, City>, rows: seq<CityRow>, after: map<int, City>)
    requires WithCities(cities, rows) == Some(after)
    ensures forall r :: r in rows ==> r.id in after
    ensures forall c :: c in cities ==> c in after
    ensures forall c :: c in after ==> (c in cities && after[c] == cities[c]) || CityRow(c, after[c]) in rows
    ensures forall r :: r in rows ==> CityRow(r.id, after[r.id]) in rows
  {
    if |rows| > 0 {
      var before, last := rows[..|rows| - 1], rows[|rows| - 1];
      assert rows == before + [last];
      LastRowStays(cities, before, WithCities(cities, before).value);
      assert CityRow(last.id, last.city) == last;
    }
  }

  /** After a successful seeding every province of the source is there under its id, its name normalized... */
  lemma SourceProvinceIsThere(source: seq<SourceProvince>, norm: string -> string, provinces: map<int, string>, i: nat)
    requires Idempotent(norm) && Validated(source) && !RepeatsName(source, norm) && i < |source|
    ensures var after := Seeded(provinces, ProvinceRows(source, norm), norm);
            source[i].id in after && after[source[i].id] == norm(source[i].name)
  {
    RowsAreGood(source, norm);
    SeededIs(provinces, ProvinceRows(source, norm), norm);
    assert ProvinceRowsIn(source, norm)[i] in ProvinceRowsIn(source, norm);
    assert ProvinceRow(source[i].id, norm(source[i].name)) in ProvinceRows(source, norm);
  }

  /** ... and every city, in its province: as it stands in the source when its id is its own, as one of them otherwise. */
  lemma SourceCityIsThere(source: seq<SourceProvince>, norm: string -> string, cities: map<int, City>, after: map<int, City>,
                          i: nat, j: nat)
    requires i < |source| && j < |source[i].cities| && WithCities(cities, CityRows(source, norm)) == Some(after)
    ensures source[i].cities[j].id in after
    ensures exists k, l :: IsSourceCity(source, norm, k, l, source[i].cities[j].id, after[source[i].cities[j].id])
    ensures IdIsItsOwn(source, i, j) ==>
              after[source[i].cities[j].id] == City(norm(source[i].cities[j].name), source[i].id)
  {
    LastRowStays(cities, CityRows(source, norm), after);
    RowOfCity(source, norm, i, j);
    var r :| r in CityRowsIn(source, norm) && IsSourceCity(source, norm, i, j, r.id, r.city);
    assert r in CityRows(source, norm);
    CityOfRow(source, norm, CityRow(r.id, after[r.id]));
  }

  /** Cities that the source does not mention are as the provinces' new ids leave them. */
  lemma OtherCitiesStay(source: seq<SourceProvince>, norm: string -> string, cities: map<int, City>, after: map<int, City>, c: int)
    requires WithCities(cities, CityRows(source, norm)) == Some(after)
    requires forall k, l :: 0 <= k < |source| && 0 <= l < |source[k].cities| ==> source[k].cities[l].id != c
    ensures (c in after <==> c in cities) && (c in cities ==> after[c] == cities[c])
  {
    LastRowStays(cities, CityRows(source, norm), after);
    if c in after && CityRow(c, after[c]) in CityRows(source, norm) {
      CityOfRow(source, norm, CityRow(c, after[c]));
    }
  }

  /** City rows that are all in place already are accepted and change nothing. */
  lemma {:induction false} CitiesInPlace(cities: map<int, City>, rows: seq<CityRow>)
    requires UniqueCities(cities)
    requires forall r :: r in rows ==> r.id in cities && cities[r.id] == r.city
    ensures WithCities(cities, rows) == Some(cities)
  {
    if |rows| > 0 {
      var before, last := rows[..|rows| - 1], rows[|rows| - 1];
      assert rows == before + [last];
      CitiesInPlace(cities, before);
      assert last in rows;
      SameMap(cities[last.id := last.city], cities);
    }
  }

  /** Seeding the same source again leaves the cities alone too. */
  lemma SeedingAgainChangesNoCity(provinces: map<int, string>, cities: map<int, City>, rows: seq<ProvinceRow>,
                                  norm: string -> string, cityRows: seq<CityRow>, start: map<int, City>)
    requires DistinctIds(rows) && DistinctNames(rows) && Normalized(rows, norm)
    requires forall i, j :: 0 <= i < j < |cityRows| ==> cityRows[i].id != cityRows[j].id
    requires UniqueCities(cities) && WithCities(start, cityRows) == Some(cities)
    ensures WithCities(Retargeted(cities, Seeded(provinces, rows, norm), rows, norm), cityRows) == Some(cities)
  {
    var after := Seeded(provinces, rows, norm);
    var again := Retargeted(cities, after, rows, norm);
    forall c | c in again
      ensures c in cities && again[c] == cities[c]
    {
      SeededIsManaged(provinces, rows, norm, cities[c].provinceId);
      assert Target(after, rows, norm, cities[c].provinceId) == cities[c].provinceId;
    }
    SameMap(again, cities);
    WithCitiesIs(start, cityRows);
    CitiesInPlace(cities, cityRows);
  }

  /**
   Addresses have no foreign key, so one may refer to a province that does not exist. If its number is then used for a
   temporary province, the address is carried off to a real one: here two provinces swap ids, and 3 is captured.
   */
  lemma DanglingAddressIsCaptured()
    ensures exists provinces: map<int, string>, rows: seq<ProvinceRow>, norm: string -> string, v: int ::
              && DistinctIds(rows) && DistinctNames(rows) && Normalized(rows, norm)
              && v !in provinces && Target(provinces, rows, norm, v) == v && Captured(provinces, rows, norm, v)
  {
    var provinces: map<int, string> := map[1 := "b", 2 := "a"];
    var rows := [ProvinceRow(1, "a"), ProvinceRow(2, "b")];
    var norm: string -> string := (s: string) => s;
    assert rows[0] == ProvinceRow(1, "a") && rows[0] in rows && rows[1] in rows;
    TargetIs(provinces, rows, norm, 1, 2);
    TargetIs(provinces, rows, norm, 2, 1);
    assert Managed(provinces, rows, norm, 1) && Target(provinces, rows, norm, 1) != 1;
    assert Base(provinces, rows) == 2;
    assert ManagedIds(provinces, rows, norm) == {1, 2};
    assert Captured(provinces, rows, norm, 3);
  }
}

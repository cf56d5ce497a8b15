/** Seeding the location tables, statement by statement. */
module LocationsDb {
  import opened Common
  import opened Locations
  import opened LocationsSeeder

  /** Fresh random names for temporary provinces. */
  ghost predicate FreshNames(tempName: nat -> string, provinces: map<int, string>, rows: seq<ProvinceRow>) {
    && (forall i: nat, j: nat :: i != j ==> tempName(i) != tempName(j))
    && (forall i: nat, id :: id in provinces ==> provinces[id] != tempName(i))
    && (forall i: nat, r :: r in rows ==> r.name != tempName(i))
  }

  class LocationsDb {
    var provinces: map<int, string>
    var cities: map<int, City>
    var addresses: map<int, int>

    /** The constraints on provinces and cities; an address may refer to any number. */
    ghost predicate Valid()
      reads this
    {
      UniqueNames(provinces) && UniqueCities(cities) && NoneDangling(provinces, cities)
    }

    // -------------------------------------------------------------- statements

    /** UPDATE cities, UPDATE addresses, for each shift in turn. */
    method MoveReferences(shifts: seq<Shift>)
      requires Valid()
      requires forall s :: s in shifts ==> s.to in provinces && NoCityAt(cities, s.to)
      requires forall i, j :: 0 <= i < j < |shifts| ==> shifts[i].to != shifts[j].to
      modifies this`cities, this`addresses
      ensures Valid()
      ensures cities == Repointed(old(cities), shifts)
      ensures addresses == RepointedAddresses(old(addresses), shifts)
    {
      assert forall i :: 0 <= i < |shifts| ==> shifts[i] in shifts;
      NotYetMoved(cities, addresses, shifts[..0]);
      for i := 0 to |shifts|
        invariant Valid()
        invariant cities == Repointed(old(cities), shifts[..i])
        invariant addresses == RepointedAddresses(old(addresses), shifts[..i])
        invariant forall j :: i <= j < |shifts| ==> NoCityAt(cities, shifts[j].to)
      {
        var s := shifts[i];
        OneMoreShift(old(cities), old(addresses), shifts, i);
        cities := map c | c in cities :: if cities[c].provinceId == s.from then cities[c].(provinceId := s.to) else cities[c];
        addresses := map a | a in addresses :: if addresses[a] == s.from then s.to else addresses[a];
      }
      assert shifts[..|shifts|] == shifts;
    }

    /** DELETE FROM provinces, with its cascade to cities. */
    method DeleteProvinces(ids: set<int>)
      requires Valid()
      modifies this`provinces, this`cities
      ensures Valid()
      ensures provinces == old(provinces) - ids
      ensures cities == map c | c in old(cities) && old(cities)[c].provinceId !in ids :: old(cities)[c]
    {
      provinces := provinces - ids;
      cities := map c | c in cities && cities[c].provinceId !in ids :: cities[c];
    }

    /** INSERT ... ON CONFLICT (id) DO UPDATE, in batches. */
    method WriteProvinces(rows: seq<ProvinceRow>)
      requires Valid() && CanWrite(provinces, rows)
      modifies this`provinces
      ensures Valid()
      ensures provinces == Written(old(provinces), rows)
    {
      var batches := Chunk(rows, BATCH_SIZE);
      ghost var done: nat := 0;
      for k := 0 to |batches|
        invariant done <= |rows| && Flat(batches[..k]) == rows[..done] && provinces == Written(old(provinces), rows[..done])
        invariant Valid()
      {
        BatchIsSlice(batches, k, rows, done);
        WriteProvinceBatch(batches[k], old(provinces), rows, done);
        done := done + |batches[k]|;
      }
      assert batches[..|batches|] == batches && rows[..done] == rows;
    }

    /** One statement: the rows from `done` on, the earlier ones being written. */
    method WriteProvinceBatch(batch: seq<ProvinceRow>, ghost before: map<int, string>, ghost rows: seq<ProvinceRow>,
                              ghost done: nat)
      requires done + |batch| <= |rows| && batch == rows[done..done + |batch|]
      requires CanWrite(before, rows) && provinces == Written(before, rows[..done]) && Valid()
      modifies this`provinces
      ensures provinces == Written(before, rows[..done + |batch|]) && Valid()
    {
      for n := 0 to |batch|
        invariant provinces == Written(before, rows[..done + n]) && Valid()
      {
        OneMoreProvinceRow(before, rows, done + n);
        provinces := provinces[batch[n].id := batch[n].name];
      }
    }

    /** INSERT ... ON CONFLICT (id) DO UPDATE, in batches, until a constraint refuses a row. */
    method WriteCities(rows: seq<CityRow>) returns (ok: bool)
      requires Valid() && forall r :: r in rows ==> r.city.provinceId in provinces
      modifies this`cities
      ensures ok <==> WithCities(old(cities), rows).Some?
      ensures ok ==> Valid() && cities == WithCities(old(cities), rows).value
    {
      var batches := Chunk(rows, BATCH_SIZE);
      ghost var done: nat := 0;
      assert rows[..0] == [];
      for k := 0 to |batches|
        invariant done <= |rows| && Flat(batches[..k]) == rows[..done] && WithCities(old(cities), rows[..done]) == Some(cities)
        invariant Valid()
      {
        BatchIsSlice(batches, k, rows, done);
        var fits := WriteCityBatch(batches[k], old(cities), rows, done);
        if !fits {
          NoneStaysNone(old(cities), rows, done + |batches[k]|);
          return false;
        }
        done := done + |batches[k]|;
      }
      assert batches[..|batches|] == batches && rows[..done] == rows;
      return true;
    }

    method WriteCityBatch(batch: seq<CityRow>, ghost before: map<int, City>, ghost rows: seq<CityRow>, ghost done: nat)
      returns (ok: bool)
      requires done + |batch| <= |rows| && batch == rows[done..done + |batch|]
      requires forall r :: r in rows ==> r.city.provinceId in provinces
      requires WithCities(before, rows[..done]) == Some(cities) && Valid()
      modifies this`cities
      ensures ok ==> WithCities(before, rows[..done + |batch|]) == Some(cities) && Valid()
      ensures !ok ==> WithCities(before, rows[..done + |batch|]).None?
    {
      for n := 0 to |batch|
        invariant WithCities(before, rows[..done + n]) == Some(cities) && Valid()
      {
        var row := batch[n];
        OneMoreOfBatch(before, rows, done, batch, n, cities, provinces);
        if exists c :: c in cities && c != row.id && cities[c] == row.city {
          return false;
        }
        cities := cities[row.id := row.city];
      }
      return true;
    }

    // -------------------------------------------------------------- checks

    /** Pairs every existing province the source names with its target id, or says why seeding must stop. */
    method FindManaged(rows: seq<ProvinceRow>, norm: string -> string) returns (r: Result<seq<Pair>, Error>)
      requires Valid() && DistinctIds(rows) && DistinctNames(rows)
      ensures r.Err? <==> DuplicatesExist(provinces, rows, norm) || TakenId(provinces, rows, norm)
      ensures r.Err? ==> r.error == if DuplicatesExist(provinces, rows, norm) then DuplicateExisting else IdTaken
      ensures r.Ok? ==> Pairing(provinces, rows, norm, r.value)
    {
      var byName := ExistingByName(rows, norm);
      if byName.None? {
        return Err(DuplicateExisting);
      }
      var pairs: seq<Pair> := [];
      for i := 0 to |rows|
        invariant forall p :: p in pairs ==> p.oldId in provinces && ProvinceRow(p.targetId, norm(provinces[p.oldId])) in rows[..i]
        invariant forall j, k :: 0 <= j < k < |pairs| ==> pairs[j].oldId != pairs[k].oldId && pairs[j].targetId != pairs[k].targetId
        invariant forall id :: id in provinces && HasName(rows[..i], norm(provinces[id])) ==> Holds(pairs, id)
      {
        assert rows[..i + 1] == rows[..i] + [rows[i]];
        NotAmong(rows, i);
        if rows[i].name in byName.value {
          ghost var before := pairs;
          var p := Pair(byName.value[rows[i].name], rows[i].id);
          pairs := pairs + [p];
          assert p in pairs && forall q :: q in before ==> q in pairs;
        }
      }
      assert rows[..|rows|] == rows;
      var idsFree := IdsAreFree(rows, norm);
      return if idsFree then Ok(pairs) else Err(IdTaken);
    }

    /** No seeded id belongs to a province that the source does not name. */
    method IdsAreFree(rows: seq<ProvinceRow>, norm: string -> string) returns (free: bool)
      ensures free <==> !TakenId(provinces, rows, norm)
    {
      for i := 0 to |rows|
        invariant forall j :: 0 <= j < i ==> rows[j].id in provinces ==> Managed(provinces, rows, norm, rows[j].id)
      {
        assert rows[i] in rows;
        if rows[i].id in provinces && !HasName(rows, norm(provinces[rows[i].id])) {
          return false;
        }
      }
      return true;
    }

    /** The managed provinces by normalized name, unless two share one. */
    method ExistingByName(rows: seq<ProvinceRow>, norm: string -> string) returns (byName: Option<map<string, int>>)
      ensures byName.None? <==> DuplicatesExist(provinces, rows, norm)
      ensures byName.Some? ==> forall name :: name in byName.value ==>
                Managed(provinces, rows, norm, byName.value[name]) && norm(provinces[byName.value[name]]) == name
      ensures byName.Some? ==> forall id :: Managed(provinces, rows, norm, id) ==>
                norm(provinces[id]) in byName.value && byName.value[norm(provinces[id])] == id
    {
      var pending := provinces.Keys;
      var found: map<string, int> := map[];
      while pending != {}
        invariant forall id :: id in pending ==> id in provinces
        invariant Indexed(provinces, rows, norm, pending, found)
        decreases |pending|
      {
        var id := Pick(pending);
        var name := norm(provinces[id]);
        OneMoreIndexed(provinces, rows, norm, pending, found, id);
        pending := pending - {id};
        if HasName(rows, name) {
          if name in found {
            return None;
          }
          found := found[name := id];
        }
      }
      return Some(found);
    }

    // -------------------------------------------------------------- reconciliation

    /** Gives the references of managed provinces temporary ids and deletes those provinces; no city goes with them. */
    method MoveAway(pairs: seq<Pair>, rows: seq<ProvinceRow>, norm: string -> string, base: int, temporary: seq<ProvinceRow>)
      requires Ready(provinces, cities, rows, norm, pairs) && Above(base, provinces, rows)
      requires CanWrite(provinces, temporary)
      requires forall id :: HasId(temporary, id) <==> base < id <= base + |pairs|
      modifies this
      ensures Valid()
      ensures provinces == Written(old(provinces), temporary) - ManagedIds(old(provinces), rows, norm)
      ensures cities == Repointed(old(cities), Out(pairs, base))
      ensures addresses == RepointedAddresses(old(addresses), Out(pairs, base))
    {
      var managedIds := ManagedIds(provinces, rows, norm);
      CitiesBelow(provinces, cities, rows, base);
      NoneLeft(cities, provinces, rows, norm, pairs, base);
      WrittenIs(provinces, temporary);
      WriteProvinces(temporary);
      MoveReferences(Out(pairs, base));
      NothingCascades(cities, managedIds);
      DeleteProvinces(managedIds);
    }

    /** Writes the source's provinces, moves the references to them and deletes the temporary ones. */
    method MoveHome(shifts: seq<Shift>, rows: seq<ProvinceRow>, temporaryIds: set<int>)
      requires Valid() && CanWrite(provinces, rows)
      requires forall s :: s in shifts ==> HasId(rows, s.to) && NoCityAt(cities, s.to)
      requires forall i, j :: 0 <= i < j < |shifts| ==> shifts[i].to != shifts[j].to
      requires forall id :: id in temporaryIds ==> NoCityAt(Repointed(cities, shifts), id)
      modifies this
      ensures Valid()
      ensures provinces == Written(old(provinces), rows) - temporaryIds
      ensures cities == Repointed(old(cities), shifts)
      ensures addresses == RepointedAddresses(old(addresses), shifts)
    {
      WrittenIs(provinces, rows);
      WriteProvinces(rows);
      MoveReferences(shifts);
      NothingCascades(cities, temporaryIds);
      DeleteProvinces(temporaryIds);
    }

    /**
     Gives every managed province its target id, by way of temporary ones. No city is lost to a cascade, every city
     follows its province, and so does every address that does not hold a temporary id to begin with.
     */
    method Reconcile(pairs: seq<Pair>, rows: seq<ProvinceRow>, norm: string -> string, base: int, tempName: nat -> string)
      requires Ready(provinces, cities, rows, norm, pairs) && Above(base, provinces, rows)
      requires FreshNames(tempName, provinces, rows)
      modifies this
      ensures Valid()
      ensures provinces == Seeded(old(provinces), rows, norm)
      ensures cities == Retargeted(old(cities), old(provinces), rows, norm)
      ensures addresses == RepointedAddresses(RepointedAddresses(old(addresses), Out(pairs, base)), Back(pairs, base))
    {
      ghost var provinces0, cities0 := provinces, cities;
      var temporary := seq(|pairs|, i requires 0 <= i < |pairs| => ProvinceRow(base + i + 1, tempName(i)));
      var temporaryIds := TemporaryIds(base, |pairs|);
      TemporariesAreNew(provinces, rows, tempName, temporary, base, |pairs|);
      TargetsAreFree(cities, provinces, rows, norm, pairs, base);
      NoneTemporary(cities, provinces, rows, norm, pairs, base);
      RepointedTwice(cities, provinces, rows, norm, pairs, base);
      WrittenThroughTemporaries(provinces, rows, norm, temporary, temporaryIds);
      MoveAway(pairs, rows, norm, base, temporary);
      RowsAreFree(provinces0, rows, norm, temporary, tempName, provinces);
      MoveHome(Back(pairs, base), rows, temporaryIds);
    }

    // -------------------------------------------------------------- seed

    /** Ids, then names, of the provinces; nothing changes when a check fails. */
    method SeedProvinces(rows: seq<ProvinceRow>, norm: string -> string, tempName: nat -> string) returns (e: Option<Error>)
      requires Valid() && 0 < |rows| && DistinctIds(rows) && DistinctNames(rows) && Normalized(rows, norm)
      requires FreshNames(tempName, provinces, rows)
      modifies this
      ensures Valid()
      ensures e.Some? <==>
              || DuplicatesExist(old(provinces), rows, norm)
              || TakenId(old(provinces), rows, norm)
              || NoRoom(old(provinces), rows, norm)
      ensures e.Some? ==> provinces == old(provinces) && cities == old(cities) && addresses == old(addresses)
      ensures e.Some? ==>
                e.value == if DuplicatesExist(old(provinces), rows, norm) then DuplicateExisting
                           else if TakenId(old(provinces), rows, norm) then IdTaken else NoTemporaryIds
      ensures e.None? ==>
                && provinces == Seeded(old(provinces), rows, norm)
                && cities == Retargeted(old(cities), old(provinces), rows, norm)
                && AddressesFollow(old(addresses), addresses, old(provinces), rows, norm)
    {
      ghost var provinces0, addresses0 := provinces, addresses;
      var managed := FindManaged(rows, norm);
      if managed.Err? {
        return Some(managed.error);
      }
      var pairs := managed.value;
      PairsAreManaged(provinces, rows, norm, pairs);
      if exists p :: p in pairs && p.oldId != p.targetId {
        var base := Base(provinces, rows);
        if MAX_INT < base + |pairs| {
          return Some(NoTemporaryIds);
        }
        Reconcile(pairs, rows, norm, base, tempName);
        AddressesArrive(addresses0, provinces0, rows, norm, pairs, base);
      } else {
        InPlace(provinces, cities, addresses, rows, norm);
        WriteProvinces(rows);
      }
      return None;
    }

    /**
     Seeds provinces and cities, all or nothing. Provinces the source does not name stay as they are; every city and
     every address follows its province to the target id, whatever permutation of ids that takes.
     */
    method Seed(source: seq<SourceProvince>, norm: string -> string, tempName: nat -> string) returns (r: Result<(nat, nat), Error>)
      requires Valid() && Idempotent(norm) && Validated(source)
      requires FreshNames(tempName, provinces, ProvinceRows(source, norm))
      modifies this
      ensures Valid()
      ensures r.Err? <==>
              || RepeatsName(source, norm)
              || DuplicatesExist(old(provinces), ProvinceRows(source, norm), norm)
              || TakenId(old(provinces), ProvinceRows(source, norm), norm)
              || NoRoom(old(provinces), ProvinceRows(source, norm), norm)
              || WithCities(Retargeted(old(cities), old(provinces), ProvinceRows(source, norm), norm), CityRows(source, norm)).None?
      ensures r.Err? ==> provinces == old(provinces) && cities == old(cities) && addresses == old(addresses)
      ensures r.Err? ==>
                var rows := ProvinceRows(source, norm);
                r.error == if RepeatsName(source, norm) then DuplicateName
                           else if DuplicatesExist(old(provinces), rows, norm) then DuplicateExisting
                           else if TakenId(old(provinces), rows, norm) then IdTaken
                           else if NoRoom(old(provinces), rows, norm) then NoTemporaryIds
                           else CityConflict
      ensures r.Ok? ==> r.value == (|source|, |CityRows(source, norm)|)
      ensures r.Ok? ==>
                && provinces == Seeded(old(provinces), ProvinceRows(source, norm), norm)
                && Some(cities) == WithCities(Retargeted(old(cities), old(provinces), ProvinceRows(source, norm), norm),
                                              CityRows(source, norm))
                && AddressesFollow(old(addresses), addresses, old(provinces), ProvinceRows(source, norm), norm)
    {
      var both := ToRows(source, norm);
      if both.Err? {
        return Err(both.error);
      }
      var (provinceRows, cityRows) := both.value;
      RowsAreGood(source, norm);
      var provinces0, cities0, addresses0 := provinces, cities, addresses;
      var failed := SeedProvinces(provinceRows, norm, tempName);
      if failed.Some? {
        return Err(failed.value);
      }
      SeededIs(provinces0, provinceRows, norm);
      CityRowsRefer(source, norm);
      var ok := WriteCities(cityRows);
      if !ok {
        provinces, cities, addresses := provinces0, cities0, addresses0;
        return Err(CityConflict);
      }
      return Ok((|provinceRows|, |cityRows|));
    }
  }

  // ---------------------------------------------------------------- what seeding promises

  /** What the schema of the source file guarantees. */
  ghost predicate Validated(source: seq<SourceProvince>) {
    && 0 < |source|
    && (forall i, j :: 0 <= i < j < |source| ==> source[i].id != source[j].id)
  }

  function RowIds(rows: seq<ProvinceRow>): (ids: set<int>)
    ensures forall r :: r in rows ==> r.id in ids
  {
    set r | r in rows :: r.id
  }

  /** The highest id in use or wanted. */
  function Base(provinces: map<int, string>, rows: seq<ProvinceRow>): (base: int)
    requires 0 < |rows|
    ensures Above(base, provinces, rows)
  {
    assert rows[0] in rows;
    var ids := provinces.Keys + RowIds(rows);
    assert rows[0].id in ids;
    Greatest(ids)
  }

  ghost predicate NeedsReconciliation(provinces: map<int, string>, rows: seq<ProvinceRow>, norm: string -> string) {
    exists id :: Managed(provinces, rows, norm, id) && Target(provinces, rows, norm, id) != id
  }

  /** Ids must move and there are not enough integers above the highest one. */
  ghost predicate NoRoom(provinces: map<int, string>, rows: seq<ProvinceRow>, norm: string -> string) {
    && 0 < |rows| && NeedsReconciliation(provinces, rows, norm)
    && 2147483647 < Base(provinces, rows) + |ManagedIds(provinces, rows, norm)|
  }

  /** The address refers, before seeding, to an id that becomes a temporary province. */
  ghost predicate Captured(provinces: map<int, string>, rows: seq<ProvinceRow>, norm: string -> string, v: int) {
    && 0 < |rows| && NeedsReconciliation(provinces, rows, norm)
    && Base(provinces, rows) < v <= Base(provinces, rows) + |ManagedIds(provinces, rows, norm)|
  }

  /** An address ends at its province's target exactly when it did not refer to an id about to be a temporary one. */
  ghost predicate AddressesFollow(before: map<int, int>, after: map<int, int>, provinces: map<int, string>,
                                  rows: seq<ProvinceRow>, norm: string -> string)
  {
    && after.Keys == before.Keys
    && forall a :: a in before ==>
         (after[a] == Target(provinces, rows, norm, before[a]) <==> !Captured(provinces, rows, norm, before[a]))
  }

  lemma RowsAreGood(source: seq<SourceProvince>, norm: string -> string)
    requires Idempotent(norm) && Validated(source) && !RepeatsName(source, norm)
    ensures var rows := ProvinceRows(source, norm);
            0 < |rows| && DistinctIds(rows) && DistinctNames(rows) && Normalized(rows, norm)
  {
    var unsorted, rows := ProvinceRowsIn(source, norm), ProvinceRows(source, norm);
    assert DistinctBy(unsorted, ProvinceId);
    SortAscends(unsorted, ProvinceId);
    assert Rising(rows, ProvinceId);
    forall i, j | 0 <= i < j < |rows|
      ensures rows[i].name != rows[j].name
    {
      assert ProvinceId(rows[i]) != ProvinceId(rows[j]);
      assert rows[i] in unsorted && rows[j] in unsorted;
      var k :| 0 <= k < |unsorted| && unsorted[k] == rows[i];
      var l :| 0 <= l < |unsorted| && unsorted[l] == rows[j];
      assert norm(source[Min(k, l)].name) != norm(source[Max(k, l)].name);
    }
    forall i, j | 0 <= i < j < |rows|
      ensures rows[i].id != rows[j].id
    {
      assert ProvinceId(rows[i]) != ProvinceId(rows[j]);
    }
    forall r | r in rows
      ensures norm(r.name) == r.name
    {
      assert r in unsorted;
    }
  }

  lemma {:induction false} CitiesHaveProvinces(source: seq<SourceProvince>, norm: string -> string)
    ensures forall r :: r in CityRowsIn(source, norm) ==> exists p :: p in source && p.id == r.city.provinceId
  {
    if |source| > 0 {
      CitiesHaveProvinces(source[..|source| - 1], norm);
      assert source == source[..|source| - 1] + [source[|source| - 1]];
      assert source[|source| - 1] in source;
    }
  }

  lemma CityRowsRefer(source: seq<SourceProvince>, norm: string -> string)
    ensures forall r :: r in CityRows(source, norm) ==> HasId(ProvinceRows(source, norm), r.city.provinceId)
  {
    CitiesHaveProvinces(source, norm);
    forall r | r in CityRows(source, norm)
      ensures HasId(ProvinceRows(source, norm), r.city.provinceId)
    {
      assert r in CityRowsIn(source, norm);
      var p :| p in source && p.id == r.city.provinceId;
      var i :| 0 <= i < |source| && source[i] == p;
      assert ProvinceRowsIn(source, norm)[i] in ProvinceRowsIn(source, norm);
      assert ProvinceRowsIn(source, norm)[i] in ProvinceRows(source, norm);
    }
  }

  function OldIds(pairs: seq<Pair>): (ids: set<int>)
    ensures forall id :: id in ids <==> Holds(pairs, id)
    ensures (forall i, j :: 0 <= i < j < |pairs| ==> pairs[i].oldId != pairs[j].oldId) ==> |ids| == |pairs|
  {
    if |pairs| == 0 then {}
    else
      var before, last := pairs[..|pairs| - 1], pairs[|pairs| - 1];
      assert pairs == before + [last];
      assert forall id :: Holds(pairs, id) <==> Holds(before, id) || id == last.oldId;
      OldIds(before) + {last.oldId}
  }

  /** One pair per managed province; some pair moves exactly when some province must. */
  lemma PairsAreManaged(provinces: map<int, string>, rows: seq<ProvinceRow>, norm: string -> string, pairs: seq<Pair>)
    requires DistinctNames(rows) && Pairing(provinces, rows, norm, pairs)
    ensures |pairs| == |ManagedIds(provinces, rows, norm)|
    ensures (exists p :: p in pairs && p.oldId != p.targetId) <==> NeedsReconciliation(provinces, rows, norm)
  {
    forall p | p in pairs
      ensures Managed(provinces, rows, norm, p.oldId) && Target(provinces, rows, norm, p.oldId) == p.targetId
    {
      TargetIs(provinces, rows, norm, p.oldId, p.targetId);
    }
    forall id
      ensures id in OldIds(pairs) <==> id in ManagedIds(provinces, rows, norm)
    {
      if Holds(pairs, id) {
        var p :| p in pairs && p.oldId == id;
      }
    }
    assert OldIds(pairs) == ManagedIds(provinces, rows, norm);
    if id :| Managed(provinces, rows, norm, id) && Target(provinces, rows, norm, id) != id {
      assert Holds(pairs, id);
    }
  }

  lemma AddressesArrive(addresses: map<int, int>, provinces: map<int, string>, rows: seq<ProvinceRow>, norm: string -> string,
                        pairs: seq<Pair>, base: int)
    requires 0 < |rows| && DistinctNames(rows) && Pairing(provinces, rows, norm, pairs)
    requires NeedsReconciliation(provinces, rows, norm) && base == Base(provinces, rows)
    requires |pairs| == |ManagedIds(provinces, rows, norm)|
    ensures AddressesFollow(addresses, RepointedAddresses(RepointedAddresses(addresses, Out(pairs, base)), Back(pairs, base)),
                            provinces, rows, norm)
  {
    forall a | a in addresses {
      ThereAndBack(provinces, rows, norm, pairs, base, addresses[a]);
    }
  }

  /** With every managed province at its target id, writing the rows in place is all there is to do. */
  lemma InPlace(provinces: map<int, string>, cities: map<int, City>, addresses: map<int, int>, rows: seq<ProvinceRow>,
                norm: string -> string)
    requires DistinctIds(rows) && DistinctNames(rows) && Normalized(rows, norm)
    requires !NeedsReconciliation(provinces, rows, norm)
    ensures CanWrite(provinces, rows)
    ensures Written(provinces, rows) == Seeded(provinces, rows, norm)
    ensures Retargeted(cities, provinces, rows, norm) == cities
    ensures AddressesFollow(addresses, addresses, provinces, rows, norm)
  {
    forall id, r | id in provinces && r in rows && provinces[id] == r.name
      ensures id == r.id
    {
      TargetIs(provinces, rows, norm, id, r.id);
    }
    forall id | Managed(provinces, rows, norm, id)
      ensures HasId(rows, id)
    {
      assert ProvinceRow(id, norm(provinces[id])) in rows;
    }
    WrittenInPlace(provinces, rows, norm);
    var same := Retargeted(cities, provinces, rows, norm);
    forall c | c in same
      ensures c in cities && same[c] == cities[c]
    {
      assert Target(provinces, rows, norm, cities[c].provinceId) == cities[c].provinceId;
    }
    SameMap(same, cities);
  }

  // ---------------------------------------------------------------- facts for the loops

  /** The rows can be written in turn without two provinces of one name. */
  ghost predicate CanWrite(provinces: map<int, string>, rows: seq<ProvinceRow>) {
    && DistinctIds(rows) && DistinctNames(rows)
    && forall id, r :: id in provinces && r in rows && provinces[id] == r.name ==> id == r.id
  }

  lemma NotYetMoved(cities: map<int, City>, addresses: map<int, int>, shifts: seq<Shift>)
    requires |shifts| == 0
    ensures Repointed(cities, shifts) == cities && RepointedAddresses(addresses, shifts) == addresses
  {
    var r, a := Repointed(cities, shifts), RepointedAddresses(addresses, shifts);
    forall c | c in r
      ensures c in cities && r[c] == cities[c]
    {
      assert Moved(cities[c].provinceId, shifts) == cities[c].provinceId;
    }
    forall x | x in a
      ensures x in addresses && a[x] == addresses[x]
    {
      assert Moved(addresses[x], shifts) == addresses[x];
    }
    SameMap(r, cities);
    SameMap(a, addresses);
  }

  lemma NothingCascades(cities: map<int, City>, ids: set<int>)
    requires forall id :: id in ids ==> NoCityAt(cities, id)
    ensures (map c | c in cities && cities[c].provinceId !in ids :: cities[c]) == cities
  {
    forall c | c in cities
      ensures cities[c].provinceId !in ids
    {
      assert !NoCityAt(cities, cities[c].provinceId);
    }
  }

  lemma OneMoreShift(cities: map<int, City>, addresses: map<int, int>, shifts: seq<Shift>, i: nat)
    requires i < |shifts|
    ensures var before, s := Repointed(cities, shifts[..i]), shifts[i];
            Repointed(cities, shifts[..i + 1]) ==
            map c | c in before :: if before[c].provinceId == s.from then before[c].(provinceId := s.to) else before[c]
    ensures var before, s := RepointedAddresses(addresses, shifts[..i]), shifts[i];
            RepointedAddresses(addresses, shifts[..i + 1]) ==
            map a | a in before :: if before[a] == s.from then s.to else before[a]
  {
    assert shifts[..i + 1][..i] == shifts[..i];
    assert forall v :: Moved(v, shifts[..i + 1]) == if Moved(v, shifts[..i]) == shifts[i].from then shifts[i].to
                                                    else Moved(v, shifts[..i]);
  }

  /** `found` is the managed provinces not pending any more, by normalized name. */
  ghost predicate Indexed(provinces: map<int, string>, rows: seq<ProvinceRow>, norm: string -> string, pending: set<int>,
                          found: map<string, int>)
  {
    && (forall name :: name in found ==> found[name] !in pending && IsNamed(provinces, rows, norm, found[name], name))
    && (forall id :: Managed(provinces, rows, norm, id) && id !in pending ==>
          norm(provinces[id]) in found && found[norm(provinces[id])] == id)
  }

  predicate IsNamed(provinces: map<int, string>, rows: seq<ProvinceRow>, norm: string -> string, id: int, name: string) {
    Managed(provinces, rows, norm, id) && norm(provinces[id]) == name
  }

  lemma OneMoreIndexed(provinces: map<int, string>, rows: seq<ProvinceRow>, norm: string -> string, pending: set<int>,
                       found: map<string, int>, id: int)
    requires Indexed(provinces, rows, norm, pending, found) && id in provinces && id in pending
    ensures var name := norm(provinces[id]);
            && (HasName(rows, name) && name in found ==> DuplicatesExist(provinces, rows, norm))
            && (HasName(rows, name) && name !in found ==> Indexed(provinces, rows, norm, pending - {id}, found[name := id]))
            && (!HasName(rows, name) ==> Indexed(provinces, rows, norm, pending - {id}, found))
  {
    var name := norm(provinces[id]);
    if HasName(rows, name) && name in found {
      assert Managed(provinces, rows, norm, id) && found[name] != id;
      assert IsNamed(provinces, rows, norm, found[name], name);
    }
  }

  lemma BatchIsSlice<T>(batches: seq<seq<T>>, k: nat, items: seq<T>, done: nat)
    requires k < |batches| && done <= |items| && Flat(batches) == items && Flat(batches[..k]) == items[..done]
    ensures done + |batches[k]| <= |items| && batches[k] == items[done..done + |batches[k]|]
    ensures Flat(batches[..k + 1]) == items[..done + |batches[k]|]
  {
    FlatPrefix(batches, k + 1);
    assert batches[..k + 1][..k] == batches[..k];
    var upTo := Flat(batches[..k + 1]);
    assert upTo == items[..done] + batches[k];
    assert items[..|upTo|] == upTo;
  }

  lemma {:induction false} FlatPrefix<T>(batches: seq<seq<T>>, k: nat)
    requires k <= |batches|
    ensures Flat(batches[..k]) <= Flat(batches)
  {
    if k == |batches| {
      assert batches[..k] == batches;
    } else {
      FlatPrefix(batches[..|batches| - 1], k);
      assert batches[..|batches| - 1][..k] == batches[..k];
    }
  }

  /** Writing one more row keeps names unique. */
  lemma OneMoreProvinceRow(provinces: map<int, string>, rows: seq<ProvinceRow>, n: nat)
    requires n < |rows| && CanWrite(provinces, rows) && UniqueNames(Written(provinces, rows[..n]))
    ensures Written(provinces, rows[..n + 1]) == Written(provinces, rows[..n])[rows[n].id := rows[n].name]
    ensures UniqueNames(Written(provinces, rows[..n + 1]))
  {
    assert rows[..n + 1][..n] == rows[..n];
    WrittenIs(provinces, rows[..n]);
    var w := Written(provinces, rows[..n]);
    forall id | id in w && HasId(rows[..n], id)
      ensures w[id] != rows[n].name
    {
      var r :| r in rows[..n] && r.id == id;
      var i :| 0 <= i < n && rows[i] == r;
      assert rows[i].name != rows[n].name;
    }
    assert rows[n] in rows;
  }

  lemma {:induction false} NoneStaysNone(cities: map<int, City>, rows: seq<CityRow>, n: nat)
    requires n <= |rows| && WithCities(cities, rows[..n]).None?
    ensures WithCities(cities, rows).None?
    decreases |rows|
  {
    if n == |rows| {
      assert rows[..n] == rows;
    } else {
      assert rows[..|rows| - 1][..n] == rows[..n];
      NoneStaysNone(cities, rows[..|rows| - 1], n);
    }
  }

  lemma OneMoreCityRow(before: map<int, City>, rows: seq<CityRow>, n: nat, cities: map<int, City>, end: nat,
                        provinces: map<int, string>)
    requires n < end <= |rows| && WithCities(before, rows[..n]) == Some(cities)
    requires UniqueCities(cities) && NoneDangling(provinces, cities) && rows[n].city.provinceId in provinces
    ensures var after := WithCity(cities, rows[n]);
            after.Some? ==> UniqueCities(after.value) && NoneDangling(provinces, after.value)
    ensures WithCities(before, rows[..n + 1]) == WithCity(cities, rows[n])
    ensures WithCity(cities, rows[n]).None? ==> WithCities(before, rows[..end]).None?
  {
    assert rows[..n + 1][..n] == rows[..n];
    assert rows[..end][..n + 1] == rows[..n + 1];
    if WithCity(cities, rows[n]).None? {
      NoneStaysNone(before, rows[..end], n + 1);
    }
  }

  lemma OneMoreOfBatch(before: map<int, City>, rows: seq<CityRow>, done: nat, batch: seq<CityRow>, n: nat,
                       cities: map<int, City>, provinces: map<int, string>)
    requires n < |batch| && done + |batch| <= |rows| && batch == rows[done..done + |batch|]
    requires WithCities(before, rows[..done + n]) == Some(cities) && UniqueCities(cities) && NoneDangling(provinces, cities)
    requires forall r :: r in rows ==> r.city.provinceId in provinces
    ensures var after := WithCity(cities, batch[n]);
            after.Some? ==> UniqueCities(after.value) && NoneDangling(provinces, after.value)
    ensures WithCities(before, rows[..done + (n + 1)]) == WithCity(cities, batch[n])
    ensures WithCity(cities, batch[n]).None? ==> WithCities(before, rows[..done + |batch|]).None?
  {
    assert batch[n] == rows[done + n] && rows[done + n] in rows;
    OneMoreCityRow(before, rows, done + n, cities, done + |batch|, provinces);
  }

  lemma NotAmong(rows: seq<ProvinceRow>, i: nat)
    requires i < |rows| && DistinctIds(rows) && DistinctNames(rows)
    ensures !HasName(rows[..i], rows[i].name) && !HasId(rows[..i], rows[i].id)
    ensures forall name :: HasName(rows[..i + 1], name) <==> HasName(rows[..i], name) || name == rows[i].name
  {
    assert rows[..i + 1] == rows[..i] + [rows[i]];
    assert rows[i] in rows[..i + 1];
    assert forall r :: r in rows[..i] ==> r in rows[..i + 1];
  }

  // ---------------------------------------------------------------- facts for the reconciliation

  lemma TemporariesAreNew(provinces: map<int, string>, rows: seq<ProvinceRow>, tempName: nat -> string,
                          temporary: seq<ProvinceRow>, base: int, n: nat)
    requires Above(base, provinces, rows) && FreshNames(tempName, provinces, rows)
    requires |temporary| == n && forall i :: 0 <= i < n ==> temporary[i] == ProvinceRow(base + i + 1, tempName(i))
    ensures DistinctIds(temporary) && DistinctNames(temporary)
    ensures forall id, r :: id in provinces && r in temporary ==> provinces[id] != r.name
    ensures forall id :: id in TemporaryIds(base, n) <==> HasId(temporary, id)
    ensures forall r :: r in rows ==> r.id !in TemporaryIds(base, n)
    ensures forall id :: id in provinces ==> id !in TemporaryIds(base, n)
  {
    forall id | base < id <= base + n
      ensures HasId(temporary, id)
    {
      assert temporary[id - base - 1] in temporary;
    }
  }

  /** References of cities are to existing provinces, so below every temporary id. */
  lemma CitiesBelow(provinces: map<int, string>, cities: map<int, City>, rows: seq<ProvinceRow>, base: int)
    requires NoneDangling(provinces, cities) && Above(base, provinces, rows)
    ensures forall id :: base < id ==> NoCityAt(cities, id)
  {
  }

  lemma NoneLeft(cities: map<int, City>, provinces: map<int, string>, rows: seq<ProvinceRow>, norm: string -> string,
                 pairs: seq<Pair>, base: int)
    requires Ready(provinces, cities, rows, norm, pairs) && Above(base, provinces, rows)
    ensures forall id :: id in ManagedIds(provinces, rows, norm) ==> NoCityAt(Repointed(cities, Out(pairs, base)), id)
  {
    forall id | id in ManagedIds(provinces, rows, norm) {
      OutOfTheWay(cities, provinces, rows, norm, pairs, base, id);
    }
  }

  lemma TargetsAreFree(cities: map<int, City>, provinces: map<int, string>, rows: seq<ProvinceRow>, norm: string -> string,
                       pairs: seq<Pair>, base: int)
    requires Ready(provinces, cities, rows, norm, pairs) && Above(base, provinces, rows)
    ensures forall i :: 0 <= i < |pairs| ==> NoCityAt(Repointed(cities, Out(pairs, base)), pairs[i].targetId)
    ensures forall i :: 0 <= i < |pairs| ==> HasId(rows, pairs[i].targetId)
  {
    forall i | 0 <= i < |pairs|
      ensures NoCityAt(Repointed(cities, Out(pairs, base)), pairs[i].targetId) && HasId(rows, pairs[i].targetId)
    {
      assert pairs[i] in pairs;
      OutOfTheWay(cities, provinces, rows, norm, pairs, base, pairs[i].targetId);
    }
  }

  /** Back home, no city refers to a temporary id. */
  lemma NoneTemporary(cities: map<int, City>, provinces: map<int, string>, rows: seq<ProvinceRow>, norm: string -> string,
                      pairs: seq<Pair>, base: int)
    requires Ready(provinces, cities, rows, norm, pairs) && Above(base, provinces, rows)
    ensures forall id :: base < id ==> NoCityAt(Retargeted(cities, provinces, rows, norm), id)
  {
  }

  /** With the managed provinces deleted, no name of the source is in use. */
  lemma RowsAreFree(provinces: map<int, string>, rows: seq<ProvinceRow>, norm: string -> string, temporary: seq<ProvinceRow>,
                    tempName: nat -> string, left: map<int, string>)
    requires Normalized(rows, norm) && FreshNames(tempName, provinces, rows)
    requires DistinctIds(temporary) && forall r :: r in temporary ==> exists i: nat :: r.name == tempName(i)
    requires left == Written(provinces, temporary) - ManagedIds(provinces, rows, norm)
    ensures forall id, r :: id in left && r in rows ==> left[id] != r.name
  {
    WrittenIs(provinces, temporary);
    forall id, r | id in left && r in rows
      ensures left[id] != r.name
    {
      if HasId(temporary, id) {
        var t :| t in temporary && t.id == id;
        assert left[id] == t.name;
      } else {
        UnmanagedNamesDiffer(provinces, rows, norm, id);
      }
    }
  }
}

/** The location seed data, and what moving province ids through temporary ones does to the rows that refer to them. */
module Locations {
  import opened Common

  const MAX_INT := 2147483647

  datatype SourceCity = SourceCity(id: int, name: string)
  datatype SourceProvince = SourceProvince(id: int, name: string, cities: seq<SourceCity>)

  datatype ProvinceRow = ProvinceRow(id: int, name: string)
  datatype CityRow = CityRow(id: int, city: City)
  datatype City = City(name: string, provinceId: int)

  datatype Error =
    | DuplicateName
    | DuplicateExisting
    | IdTaken
    | NoTemporaryIds
    | CityConflict

  /** Name normalization is idempotent; nothing else is assumed of it. */
  ghost predicate Idempotent(norm: string -> string) {
    forall s :: norm(norm(s)) == norm(s)
  }

  // ---------------------------------------------------------------- rows

  ghost predicate DistinctIds(rows: seq<ProvinceRow>) {
    forall i, j :: 0 <= i < j < |rows| ==> rows[i].id != rows[j].id
  }

  ghost predicate DistinctNames(rows: seq<ProvinceRow>) {
    forall i, j :: 0 <= i < j < |rows| ==> rows[i].name != rows[j].name
  }

  ghost predicate Normalized(rows: seq<ProvinceRow>, norm: string -> string) {
    forall r :: r in rows ==> norm(r.name) == r.name
  }

  predicate HasName(rows: seq<ProvinceRow>, name: string) {
    exists r :: r in rows && r.name == name
  }

  predicate HasId(rows: seq<ProvinceRow>, id: int) {
    exists r :: r in rows && r.id == id
  }

  /** An existing province that the seed data names. */
  predicate Managed(provinces: map<int, string>, rows: seq<ProvinceRow>, norm: string -> string, id: int) {
    id in provinces && HasName(rows, norm(provinces[id]))
  }

  /** Where a reference to province `v` should lead: to the seeded province of the same normalized name, if any. */
  ghost function Target(provinces: map<int, string>, rows: seq<ProvinceRow>, norm: string -> string, v: int): (t: int)
    ensures Managed(provinces, rows, norm, v) ==> ProvinceRow(t, norm(provinces[v])) in rows
    ensures !Managed(provinces, rows, norm, v) ==> t == v
  {
    if Managed(provinces, rows, norm, v) then
      var r :| r in rows && r.name == norm(provinces[v]);
      r.id
    else v
  }

  lemma TargetIs(provinces: map<int, string>, rows: seq<ProvinceRow>, norm: string -> string, v: int, t: int)
    requires DistinctNames(rows) && v in provinces && ProvinceRow(t, norm(provinces[v])) in rows
    ensures Managed(provinces, rows, norm, v) && Target(provinces, rows, norm, v) == t
  {
    assert HasName(rows, norm(provinces[v]));
  }

  // ---------------------------------------------------------------- pairing old ids with target ids

  datatype Pair = Pair(oldId: int, targetId: int)

  predicate Holds(pairs: seq<Pair>, oldId: int) {
    exists p :: p in pairs && p.oldId == oldId
  }

  ghost predicate Pairing(provinces: map<int, string>, rows: seq<ProvinceRow>, norm: string -> string, pairs: seq<Pair>) {
    && (forall p :: p in pairs ==> p.oldId in provinces && ProvinceRow(p.targetId, norm(provinces[p.oldId])) in rows)
    && (forall i, j :: 0 <= i < j < |pairs| ==> pairs[i].oldId != pairs[j].oldId && pairs[i].targetId != pairs[j].targetId)
    && (forall id :: Managed(provinces, rows, norm, id) ==> Holds(pairs, id))
  }

  /** Two existing provinces claim the same seeded name. */
  ghost predicate DuplicatesExist(provinces: map<int, string>, rows: seq<ProvinceRow>, norm: string -> string) {
    exists a, b :: a != b && Managed(provinces, rows, norm, a) && Managed(provinces, rows, norm, b) &&
                   norm(provinces[a]) == norm(provinces[b])
  }

  /** A seeded id belongs to an existing province that the seed data does not name. */
  ghost predicate TakenId(provinces: map<int, string>, rows: seq<ProvinceRow>, norm: string -> string) {
    exists r :: r in rows && r.id in provinces && !Managed(provinces, rows, norm, r.id)
  }

  // ---------------------------------------------------------------- moving references

  datatype Shift = Shift(from: int, to: int)

  /** Where a reference `v` is after the updates `shifts`, in turn. */
  function Moved(v: int, shifts: seq<Shift>): int {
    if |shifts| == 0 then v
    else
      var w := Moved(v, shifts[..|shifts| - 1]);
      if w == shifts[|shifts| - 1].from then shifts[|shifts| - 1].to else w
  }

  ghost predicate Apart(shifts: seq<Shift>) {
    && (forall i, j :: 0 <= i < j < |shifts| ==> shifts[i].from != shifts[j].from)
    && (forall i, j :: 0 <= i < |shifts| && 0 <= j < |shifts| ==> shifts[i].to != shifts[j].from)
  }

  lemma {:induction false} NotMoved(v: int, shifts: seq<Shift>)
    requires forall i :: 0 <= i < |shifts| ==> shifts[i].from != v
    ensures Moved(v, shifts) == v
  {
    if |shifts| > 0 {
      NotMoved(v, shifts[..|shifts| - 1]);
    }
  }

  /** When no update moves anything to where another takes from, they act as one simultaneous substitution. */
  lemma {:induction false} MovedOnce(v: int, shifts: seq<Shift>, i: nat)
    requires Apart(shifts) && i < |shifts| && shifts[i].from == v
    ensures Moved(v, shifts) == shifts[i].to
  {
    var n := |shifts| - 1;
    if i < n {
      MovedOnce(v, shifts[..n], i);
    } else {
      NotMoved(v, shifts[..n]);
    }
  }

  function Out(pairs: seq<Pair>, base: int): seq<Shift> {
    seq(|pairs|, i requires 0 <= i < |pairs| => Shift(pairs[i].oldId, base + i + 1))
  }

  function Back(pairs: seq<Pair>, base: int): seq<Shift> {
    seq(|pairs|, i requires 0 <= i < |pairs| => Shift(base + i + 1, pairs[i].targetId))
  }

  /** Temporary ids are above every id there is. */
  ghost predicate Above(base: int, provinces: map<int, string>, rows: seq<ProvinceRow>) {
    (forall id :: id in provinces ==> id <= base) && (forall r :: r in rows ==> r.id <= base)
  }

  lemma OutAndBackAreApart(provinces: map<int, string>, rows: seq<ProvinceRow>, norm: string -> string, pairs: seq<Pair>,
                           base: int)
    requires Pairing(provinces, rows, norm, pairs) && Above(base, provinces, rows)
    ensures Apart(Out(pairs, base)) && Apart(Back(pairs, base))
    ensures forall i :: 0 <= i < |pairs| ==> pairs[i].oldId <= base && pairs[i].targetId <= base
  {
    assert forall i :: 0 <= i < |pairs| ==> pairs[i] in pairs;
  }

  /** On the way out, exactly the references to managed provinces move, each to a temporary id. */
  lemma MovedOut(provinces: map<int, string>, rows: seq<ProvinceRow>, norm: string -> string, pairs: seq<Pair>,
                 base: int, v: int)
    requires Pairing(provinces, rows, norm, pairs) && Above(base, provinces, rows)
    ensures Managed(provinces, rows, norm, v) <==> exists i :: 0 <= i < |pairs| && pairs[i].oldId == v
    ensures forall i :: 0 <= i < |pairs| && pairs[i].oldId == v ==> Moved(v, Out(pairs, base)) == base + i + 1
    ensures !Managed(provinces, rows, norm, v) ==> Moved(v, Out(pairs, base)) == v
  {
    OutAndBackAreApart(provinces, rows, norm, pairs, base);
    var out := Out(pairs, base);
    forall i | 0 <= i < |pairs| && pairs[i].oldId == v
      ensures Managed(provinces, rows, norm, v) && Moved(v, out) == base + i + 1
    {
      assert pairs[i] in pairs;
      MovedOnce(v, out, i);
    }
    if Managed(provinces, rows, norm, v) {
      var p :| p in pairs && p.oldId == v;
      var i :| 0 <= i < |pairs| && pairs[i] == p;
      assert pairs[i].oldId == v;
    } else {
      NotMoved(v, out);
    }
  }

  /** On the way back, exactly the references to temporary ids move. */
  lemma MovedBack(pairs: seq<Pair>, base: int, w: int)
    requires Apart(Back(pairs, base))
    ensures base < w <= base + |pairs| ==> Moved(w, Back(pairs, base)) == pairs[w - base - 1].targetId
    ensures !(base < w <= base + |pairs|) ==> Moved(w, Back(pairs, base)) == w
  {
    var back := Back(pairs, base);
    if base < w <= base + |pairs| {
      MovedOnce(w, back, w - base - 1);
    } else {
      NotMoved(w, back);
    }
  }

  /** Holding a temporary id before the temporary rows exist. */
  predicate AtTemporaryId(pairs: seq<Pair>, base: int, v: int) {
    base < v <= base + |pairs|
  }

  /**
   Out to temporary ids and back to target ids: every reference to a managed province reaches its target, whatever
   permutation the ids go through. Any other reference is kept, unless it already held a temporary id.
   */
  lemma ThereAndBack(provinces: map<int, string>, rows: seq<ProvinceRow>, norm: string -> string, pairs: seq<Pair>,
                     base: int, v: int)
    requires DistinctNames(rows) && Pairing(provinces, rows, norm, pairs) && Above(base, provinces, rows)
    ensures var end := Moved(Moved(v, Out(pairs, base)), Back(pairs, base));
            && (!AtTemporaryId(pairs, base, v) ==> end == Target(provinces, rows, norm, v))
            && (AtTemporaryId(pairs, base, v) ==> end == pairs[v - base - 1].targetId && end != Target(provinces, rows, norm, v))
  {
    OutAndBackAreApart(provinces, rows, norm, pairs, base);
    MovedOut(provinces, rows, norm, pairs, base, v);
    MovedBack(pairs, base, Moved(v, Out(pairs, base)));
    if Managed(provinces, rows, norm, v) {
      var i :| 0 <= i < |pairs| && pairs[i].oldId == v;
      assert pairs[i] in pairs;
      TargetIs(provinces, rows, norm, v, pairs[i].targetId);
    }
  }

  /** Two provinces never end up under one id. */
  lemma TargetsDiffer(provinces: map<int, string>, rows: seq<ProvinceRow>, norm: string -> string, v: int, w: int)
    requires DistinctIds(rows) && v in provinces && w in provinces && v != w
    requires !DuplicatesExist(provinces, rows, norm) && !TakenId(provinces, rows, norm)
    ensures Target(provinces, rows, norm, v) != Target(provinces, rows, norm, w)
  {
    var t, u := Target(provinces, rows, norm, v), Target(provinces, rows, norm, w);
    if Managed(provinces, rows, norm, v) && Managed(provinces, rows, norm, w) {
      SameIdSameRow(rows, ProvinceRow(t, norm(provinces[v])), ProvinceRow(u, norm(provinces[w])));
    }
  }

  lemma SameIdSameRow(rows: seq<ProvinceRow>, r: ProvinceRow, q: ProvinceRow)
    requires DistinctIds(rows) && r in rows && q in rows
    ensures r.id == q.id ==> r == q
  {
    var i :| 0 <= i < |rows| && rows[i] == r;
    var j :| 0 <= j < |rows| && rows[j] == q;
    assert i != j ==> rows[Min(i, j)].id != rows[Max(i, j)].id;
  }
}

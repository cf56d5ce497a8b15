/**
 May a select with joins take row locks? The analysis walks the join chain; the meaning of the chain
 is the set of rows it produces. A row has one cell per table, in FROM/JOIN order; a cell is None
 where an outer join filled the table with NULLs.
 */
module Lockable {
  import opened Common

  datatype JoinType = Inner | Cross | Left | Right | Full

  /** `name` is None for a table the query builder cannot name, such as a subquery. */
  datatype Join = Join(name: Option<string>, kind: JoinType)

  datatype Shape = Shape(
    from: Option<string>,
    joins: seq<Join>,
    groupBy: bool,
    having: bool,
    distinct: bool,
    setOperators: bool)

  datatype Violation =
    | SetOperators
    | Distinct
    | GroupBy
    | Having
    | OuterJoinNeedsOf
    | NotInFrom(name: string)
    | Nullable(name: string)

  /** Which tables a join NULL-extends: those before it, and the joined one. */
  predicate ExtendsPrevious(kind: JoinType) {
    kind.Right? || kind.Full?
  }

  predicate ExtendsJoined(kind: JoinType) {
    kind.Left? || kind.Full?
  }

  // ---------------------------------------------------------------- meaning

  type Row = seq<Option<int>>

  /** The rows of each table, and each join's ON condition. */
  datatype Db = Db(tables: seq<set<int>>, on: (nat, Row, int) -> bool)

  function TableRows(db: Db, i: nat): set<int> {
    if i < |db.tables| then db.tables[i] else {}
  }

  predicate On(db: Db, kind: JoinType, i: nat, left: Row, right: int) {
    kind.Cross? || db.on(i, left, right)
  }

  function Nulls(n: nat): Row {
    seq(n, i => None)
  }

  /** Pairs of rows that the ON condition accepts. */
  ghost function Matches(left: set<Row>, db: Db, i: nat, kind: JoinType): set<Row> {
    set a, b | a in left && b in TableRows(db, i) && On(db, kind, i, a, b) :: a + [Some(b)]
  }

  /** Rows so far without a match, NULL in the joined table. */
  ghost function UnmatchedLeft(left: set<Row>, db: Db, i: nat, kind: JoinType): set<Row> {
    set a | a in left && !exists b :: b in TableRows(db, i) && On(db, kind, i, a, b) :: a + [None]
  }

  /** Joined rows without a match, NULL in every table before. */
  ghost function UnmatchedRight(left: set<Row>, db: Db, i: nat, kind: JoinType): set<Row> {
    set b | b in TableRows(db, i) && !exists a :: a in left && On(db, kind, i, a, b) :: Nulls(i) + [Some(b)]
  }

  /** What SQL says of each type of join. */
  ghost function JoinRows(left: set<Row>, db: Db, i: nat, kind: JoinType): set<Row> {
    match kind
    case Inner => Matches(left, db, i, kind)
    case Cross => Matches(left, db, i, kind)
    case Left => Matches(left, db, i, kind) + UnmatchedLeft(left, db, i, kind)
    case Right => Matches(left, db, i, kind) + UnmatchedRight(left, db, i, kind)
    case Full => Matches(left, db, i, kind) + UnmatchedLeft(left, db, i, kind) + UnmatchedRight(left, db, i, kind)
  }

  /** The rows of FROM and the first `n` joins; table 0 is FROM, table `i` the i-th join. */
  ghost function Rows(joins: seq<Join>, n: nat, db: Db): set<Row>
    requires n <= |joins|
  {
    if n == 0 then set r | r in TableRows(db, 0) :: [Some(r)]
    else JoinRows(Rows(joins, n - 1, db), db, n, joins[n - 1].kind)
  }

  ghost function Result(shape: Shape, db: Db): set<Row> {
    Rows(shape.joins, |shape.joins|, db)
  }

  lemma {:induction false} RowLengths(joins: seq<Join>, n: nat, db: Db)
    requires n <= |joins|
    ensures forall r :: r in Rows(joins, n, db) ==> |r| == n + 1
  {
    if 0 < n {
      RowLengths(joins, n - 1, db);
    }
  }

  // ---------------------------------------------------------------- which cells can be NULL

  /** Table `t` is NULL-extended by its own join or by a later one. */
  predicate CanBeNull(joins: seq<Join>, n: nat, t: nat)
    requires n <= |joins|
  {
    || (1 <= t <= n && ExtendsJoined(joins[t - 1].kind))
    || exists k :: t <= k < n && ExtendsPrevious(joins[k].kind)
  }

  /** Where a row of one join comes from. */
  lemma JoinedRow(left: set<Row>, db: Db, i: nat, kind: JoinType, r: Row)
    requires forall l :: l in left ==> |l| == i
    requires r in JoinRows(left, db, i, kind)
    ensures |r| == i + 1
    ensures (r[..i] in left && (r[i].Some? || ExtendsJoined(kind))) || (ExtendsPrevious(kind) && r[i].Some?)
  {
    if a, b :| a in left && b in TableRows(db, i) && On(db, kind, i, a, b) && r == a + [Some(b)] {
      assert r[..i] == a;
    } else if a :| ExtendsJoined(kind) && a in left && r == a + [None] {
      assert r[..i] == a;
    }
  }

  lemma {:induction false} NeverNull(joins: seq<Join>, n: nat, db: Db, t: nat)
    requires t <= n <= |joins| && !CanBeNull(joins, n, t)
    ensures forall r: Row :: r in Rows(joins, n, db) ==> t < |r| && r[t].Some?
  {
    if 0 < n {
      RowLengths(joins, n - 1, db);
      assert t < n ==> !ExtendsPrevious(joins[n - 1].kind);
      if t < n {
        NeverNull(joins, n - 1, db, t);
      }
      forall r: Row | r in Rows(joins, n, db)
        ensures t < |r| && r[t].Some?
      {
        JoinedRow(Rows(joins, n - 1, db), db, n, joins[n - 1].kind, r);
        assert t < n ==> r[t] == r[..n][t];
      }
    }
  }

  // ---------------------------------------------------------------- a witness for every nullable table

  /** One row per table; every ON condition accepts everything, except that of join `bad`. */
  ghost function WitnessDb(tables: nat, bad: nat): Db {
    Db(seq(tables, i => {0}), (i, left, right) => i != bad)
  }

  lemma MatchedRowIsJoined(left: set<Row>, db: Db, i: nat, kind: JoinType, a: Row, b: int)
    requires a in left && b in TableRows(db, i) && On(db, kind, i, a, b)
    ensures a + [Some(b)] in JoinRows(left, db, i, kind)
  {
  }

  /** Every other join accepts everything, so it keeps every row. */
  lemma WitnessRowGrows(joins: seq<Join>, n: nat, bad: nat, r: Row)
    requires n + 1 != bad && n < |joins| && r in Rows(joins, n, WitnessDb(|joins| + 1, bad))
    ensures r + [Some(0)] in Rows(joins, n + 1, WitnessDb(|joins| + 1, bad))
  {
    var db := WitnessDb(|joins| + 1, bad);
    assert 0 in TableRows(db, n + 1) && On(db, joins[n].kind, n + 1, r, 0);
    MatchedRowIsJoined(Rows(joins, n, db), db, n + 1, joins[n].kind, r, 0);
  }

  /** From a non-empty start, joins that accept everything keep a row with the NULLs it has. */
  lemma {:induction false} WitnessRowSurvives(joins: seq<Join>, from: nat, bad: nat, r: Row) returns (r': Row)
    requires bad <= from <= |joins|
    requires r in Rows(joins, from, WitnessDb(|joins| + 1, bad))
    ensures r' in Rows(joins, |joins|, WitnessDb(|joins| + 1, bad))
    ensures r <= r'
    decreases |joins| - from
  {
    if from == |joins| {
      return r;
    }
    WitnessRowGrows(joins, from, bad, r);
    r' := WitnessRowSurvives(joins, from + 1, bad, r + [Some(0)]);
  }

  lemma LeftWithoutMatch(left: set<Row>, db: Db, i: nat, kind: JoinType, a: Row)
    requires a in left && ExtendsJoined(kind) && forall b :: b in TableRows(db, i) ==> !On(db, kind, i, a, b)
    ensures a + [None] in JoinRows(left, db, i, kind)
  {
  }

  lemma RightWithoutMatch(left: set<Row>, db: Db, i: nat, kind: JoinType, b: int)
    requires b in TableRows(db, i) && ExtendsPrevious(kind) && forall a :: a in left ==> !On(db, kind, i, a, b)
    ensures Nulls(i) + [Some(b)] in JoinRows(left, db, i, kind)
  {
  }

  /** Where the join `bad` accepts nothing, a row before it gets NULL on the joined side... */
  lemma WitnessNullJoined(joins: seq<Join>, bad: nat, start: Row)
    requires 1 <= bad <= |joins| && ExtendsJoined(joins[bad - 1].kind)
    requires start in Rows(joins, bad - 1, WitnessDb(|joins| + 1, bad))
    ensures start + [None] in Rows(joins, bad, WitnessDb(|joins| + 1, bad))
  {
    var db := WitnessDb(|joins| + 1, bad);
    LeftWithoutMatch(Rows(joins, bad - 1, db), db, bad, joins[bad - 1].kind, start);
  }

  /** ... and the joined row NULL in every table before. */
  lemma WitnessNullPrevious(joins: seq<Join>, bad: nat)
    requires 1 <= bad <= |joins| && ExtendsPrevious(joins[bad - 1].kind)
    ensures Nulls(bad) + [Some(0)] in Rows(joins, bad, WitnessDb(|joins| + 1, bad))
  {
    var db := WitnessDb(|joins| + 1, bad);
    assert 0 in TableRows(db, bad);
    RightWithoutMatch(Rows(joins, bad - 1, db), db, bad, joins[bad - 1].kind, 0);
  }

  lemma WitnessNullAt(joins: seq<Join>, t: nat, bad: nat) returns (r: Row)
    requires 1 <= bad <= |joins|
    requires (t == bad && ExtendsJoined(joins[bad - 1].kind)) || (t < bad && ExtendsPrevious(joins[bad - 1].kind))
    ensures r in Rows(joins, bad, WitnessDb(|joins| + 1, bad))
    ensures t < |r| && r[t] == None
  {
    if t == bad && ExtendsJoined(joins[bad - 1].kind) {
      var start := WitnessStart(joins, bad);
      WitnessNullJoined(joins, bad, start);
      r := start + [None];
    } else {
      WitnessNullPrevious(joins, bad);
      r := Nulls(bad) + [Some(0)];
    }
  }

  /** When the join that NULL-extends table `t` accepts nothing, some row has NULL there. */
  lemma WitnessNull(joins: seq<Join>, t: nat, bad: nat) returns (r: Row)
    requires 1 <= bad <= |joins|
    requires (t == bad && ExtendsJoined(joins[bad - 1].kind)) || (t < bad && ExtendsPrevious(joins[bad - 1].kind))
    ensures r in Rows(joins, |joins|, WitnessDb(|joins| + 1, bad))
    ensures t < |r| && r[t] == None
  {
    var r0 := WitnessNullAt(joins, t, bad);
    r := WitnessRowSurvives(joins, bad, bad, r0);
    assert r[t] == r[..|r0|][t];
  }

  /** Before the bad join the witness has a row. */
  lemma WitnessStart(joins: seq<Join>, bad: nat) returns (r: Row)
    requires 1 <= bad <= |joins|
    ensures r in Rows(joins, bad - 1, WitnessDb(|joins| + 1, bad)) && |r| == bad
  {
    var i: nat := 0;
    assert 0 in TableRows(WitnessDb(|joins| + 1, bad), 0);
    r := [Some(0)];
    while i < bad - 1
      invariant i <= bad - 1
      invariant r in Rows(joins, i, WitnessDb(|joins| + 1, bad)) && |r| == i + 1
    {
      WitnessRowGrows(joins, i, bad, r);
      r := r + [Some(0)];
      i := i + 1;
    }
  }

  /** Some contents and ON conditions give a row with NULL in table `t` exactly when `CanBeNull` says so. */
  lemma CanBeNullIsExact(joins: seq<Join>, t: nat)
    requires t <= |joins|
    ensures CanBeNull(joins, |joins|, t) <==>
            exists db: Db, r: Row :: r in Rows(joins, |joins|, db) && t < |r| && r[t] == None
  {
    if CanBeNull(joins, |joins|, t) {
      var bad: nat;
      if 1 <= t <= |joins| && ExtendsJoined(joins[t - 1].kind) {
        bad := t;
      } else {
        var k :| t <= k < |joins| && ExtendsPrevious(joins[k].kind);
        bad := k + 1;
      }
      var r := WitnessNull(joins, t, bad);
      assert r in Rows(joins, |joins|, WitnessDb(|joins| + 1, bad)) && t < |r| && r[t] == None;
    } else {
      forall db: Db, r: Row | r in Rows(joins, |joins|, db)
        ensures t < |r| && r[t].Some?
      {
        NeverNull(joins, |joins|, db, t);
      }
    }
  }

  // ---------------------------------------------------------------- the analysis

  function NameAt(shape: Shape, t: nat): Option<string>
    requires t <= |shape.joins|
  {
    if t == 0 then shape.from else shape.joins[t - 1].name
  }

  ghost predicate IsVisible(shape: Shape, n: nat, name: string)
    requires n <= |shape.joins|
  {
    exists t :: 0 <= t <= n && NameAt(shape, t) == Some(name)
  }

  ghost predicate IsNullable(shape: Shape, n: nat, name: string)
    requires n <= |shape.joins|
  {
    exists t :: 0 <= t <= n && NameAt(shape, t) == Some(name) && CanBeNull(shape.joins, n, t)
  }

  /** What one more join does to the two sets. */
  lemma NextJoin(shape: Shape, n: nat, name: string)
    requires n < |shape.joins|
    ensures var join := shape.joins[n];
            && (IsVisible(shape, n + 1, name) <==> IsVisible(shape, n, name) || join.name == Some(name))
            && (IsNullable(shape, n + 1, name) <==>
                || IsNullable(shape, n, name)
                || (ExtendsPrevious(join.kind) && IsVisible(shape, n, name))
                || (ExtendsJoined(join.kind) && join.name == Some(name)))
  {
    var join := shape.joins[n];
    assert NameAt(shape, n + 1) == join.name;
    forall t | 0 <= t <= n
      ensures CanBeNull(shape.joins, n + 1, t) <==> CanBeNull(shape.joins, n, t) || ExtendsPrevious(join.kind)
    {
      assert ExtendsPrevious(join.kind) ==> ExtendsPrevious(shape.joins[n].kind);
    }
    if IsVisible(shape, n, name) {
      var t :| 0 <= t <= n && NameAt(shape, t) == Some(name);
      assert 0 <= t <= n + 1;
    }
    if IsNullable(shape, n, name) {
      var t :| 0 <= t <= n && NameAt(shape, t) == Some(name) && CanBeNull(shape.joins, n, t);
      assert CanBeNull(shape.joins, n + 1, t);
    }
    assert CanBeNull(shape.joins, n + 1, n + 1) <==> ExtendsJoined(join.kind);
  }

  /** The four clauses that rule out any lock, in the order they are reported. */
  function Forbidden(shape: Shape): Option<Violation> {
    if shape.setOperators then Some(SetOperators)
    else if shape.distinct then Some(Distinct)
    else if shape.groupBy then Some(GroupBy)
    else if shape.having then Some(Having)
    else None
  }

  ghost predicate Offends(shape: Shape, name: string) {
    (shape.from.Some? && !IsVisible(shape, |shape.joins|, name)) || IsNullable(shape, |shape.joins|, name)
  }

  method LockViolation(shape: Shape, of: seq<string>) returns (v: Option<Violation>)
    ensures Forbidden(shape).Some? ==> v == Forbidden(shape)
    ensures v == Some(SetOperators) <==> shape.setOperators
    ensures v == Some(Distinct) <==> shape.distinct && !shape.setOperators
    ensures v == Some(GroupBy) <==> shape.groupBy && !shape.distinct && !shape.setOperators
    ensures v == Some(Having) <==> shape.having && !shape.groupBy && !shape.distinct && !shape.setOperators
    ensures Forbidden(shape).None? && of == [] ==>
              v == if exists name :: IsNullable(shape, |shape.joins|, name) then Some(OuterJoinNeedsOf) else None
    ensures Forbidden(shape).None? && of != [] ==> (v.None? <==> forall i :: 0 <= i < |of| ==> !Offends(shape, of[i]))
    ensures Forbidden(shape).None? && of != [] && v.Some? ==>
              exists i :: 0 <= i < |of| && (forall j :: 0 <= j < i ==> !Offends(shape, of[j])) &&
                          v.value == if shape.from.Some? && !IsVisible(shape, |shape.joins|, of[i])
                                     then NotInFrom(of[i]) else Nullable(of[i])
  {
    if Forbidden(shape).Some? {
      return Forbidden(shape);
    }
    var visible: set<string>, nullable: set<string> := {}, {};
    if shape.from.Some? {
      visible := visible + {shape.from.value};
    }
    assert forall name :: IsVisible(shape, 0, name) <==> NameAt(shape, 0) == Some(name);
    for i := 0 to |shape.joins|
      invariant forall name :: name in visible <==> IsVisible(shape, i, name)
      invariant forall name :: name in nullable <==> IsNullable(shape, i, name)
    {
      var Join(alias, kind) := shape.joins[i];
      forall name {
        NextJoin(shape, i, name);
      }
      if ExtendsPrevious(kind) {
        nullable := nullable + visible;
      }
      if alias.Some? {
        visible := visible + {alias.value};
        if ExtendsJoined(kind) {
          nullable := nullable + {alias.value};
        }
      }
    }
    if |of| == 0 {
      if nullable != {} {
        ghost var name := Witness(nullable);
        return Some(OuterJoinNeedsOf);
      }
      return None;
    }
    for i := 0 to |of|
      invariant forall j :: 0 <= j < i ==> !Offends(shape, of[j])
    {
      if shape.from.Some? && of[i] !in visible {
        return Some(NotInFrom(of[i]));
      }
      if of[i] in nullable {
        return Some(Nullable(of[i]));
      }
    }
    return None;
  }

  // ---------------------------------------------------------------- exactness

  /** Whatever the tables hold and the ON conditions say, no result row has NULL in table `t`. */
  ghost predicate AlwaysPresent(shape: Shape, t: nat) {
    forall db: Db, r: Row :: r in Result(shape, db) && t < |r| ==> r[t].Some?
  }

  lemma PresentUnlessCanBeNull(shape: Shape, t: nat)
    requires t <= |shape.joins|
    ensures AlwaysPresent(shape, t) <==> !CanBeNull(shape.joins, |shape.joins|, t)
  {
    CanBeNullIsExact(shape.joins, t);
    if CanBeNull(shape.joins, |shape.joins|, t) {
      var db: Db, r: Row :| r in Rows(shape.joins, |shape.joins|, db) && t < |r| && r[t] == None;
      assert r in Result(shape, db);
    } else {
      forall db: Db, r: Row | r in Result(shape, db) && t < |r|
        ensures r[t].Some?
      {
        NeverNull(shape.joins, |shape.joins|, db, t);
      }
    }
  }

  /** With `of`: accepted exactly when no result row can NULL-extend a table named in it. */
  method LockViolationIsExact(shape: Shape, of: seq<string>) returns (v: Option<Violation>)
    requires Forbidden(shape).None? && of != []
    requires shape.from.Some? ==> forall i :: 0 <= i < |of| ==> IsVisible(shape, |shape.joins|, of[i])
    ensures v.None? <==>
            forall i, t :: 0 <= i < |of| && 0 <= t <= |shape.joins| && NameAt(shape, t) == Some(of[i]) ==> AlwaysPresent(shape, t)
  {
    v := LockViolation(shape, of);
    forall t | 0 <= t <= |shape.joins| {
      PresentUnlessCanBeNull(shape, t);
    }
    assert v.None? <==> forall i :: 0 <= i < |of| ==> !IsNullable(shape, |shape.joins|, of[i]);
  }

  /**
   Without `of` every table is locked, but only named tables are tracked: a query is accepted exactly when
   no named table can be NULL-extended. That is the answer for all tables exactly when a named table sits on a
   side that a join NULL-extends or no unnamed table does.
   */
  method LockViolationOfAllIsExact(shape: Shape) returns (v: Option<Violation>)
    requires Forbidden(shape).None?
    ensures v.None? <==> forall t :: 0 <= t <= |shape.joins| && NameAt(shape, t).Some? ==> AlwaysPresent(shape, t)
    ensures (v.None? <==> forall t :: 0 <= t <= |shape.joins| ==> AlwaysPresent(shape, t)) <==>
            || (exists t :: 0 <= t <= |shape.joins| && NameAt(shape, t).Some? && CanBeNull(shape.joins, |shape.joins|, t))
            || (forall t :: 0 <= t <= |shape.joins| && NameAt(shape, t).None? ==> !CanBeNull(shape.joins, |shape.joins|, t))
  {
    v := LockViolation(shape, []);
    forall t | 0 <= t <= |shape.joins| {
      PresentUnlessCanBeNull(shape, t);
    }
    if t :| 0 <= t <= |shape.joins| && NameAt(shape, t).Some? && CanBeNull(shape.joins, |shape.joins|, t) {
      assert IsNullable(shape, |shape.joins|, NameAt(shape, t).value);
    }
  }

  /** Tables without a name are not tracked, so without `of` a NULL-extended one is overlooked. */
  lemma UnnamedTableIsOverlooked()
    ensures exists shape: Shape ::
              && Forbidden(shape).None? && |shape.joins| == 1
              && !(exists name :: IsNullable(shape, 1, name))
              && !AlwaysPresent(shape, 1)
  {
    var shape := Shape(Some("orders"), [Join(None, Left)], false, false, false, false);
    assert shape.joins[0].kind == Left;
    forall name
      ensures !IsNullable(shape, 1, name)
    {
      assert NameAt(shape, 1) == None;
      assert !CanBeNull(shape.joins, 1, 0);
    }
    PresentUnlessCanBeNull(shape, 1);
    assert Forbidden(shape).None? && |shape.joins| == 1 && !AlwaysPresent(shape, 1);
  }
}

/** Any number of category moves that all checked the same tree and all write. */
module CategoryMoves {
  import opened Common
  import opened Categories

  /** The category moved and where it goes. */
  type Moves = map<int, Option<int>>

  ghost predicate MovesWithin(t: Tree, moves: Moves) {
    moves.Keys <= t.Keys && forall i :: i in moves && moves[i].Some? ==> moves[i].value in t
  }

  function MovedAll(t: Tree, moves: Moves): (u: Tree)
    ensures u.Keys == t.Keys
  {
    map id | id in t :: if id in moves then t[id].(parentId := moves[id]) else t[id]
  }

  /** The moves may be written in any order. */
  lemma OneMoreMoved(t: Tree, moves: Moves, id: int, parent: Option<int>)
    requires id in t
    ensures MovedAll(t, moves[id := parent]) == Moved(MovedAll(t, moves), id, parent)
    ensures MovedAll(t, map[]) == t
  {
  }

  // ---------------------------------------------------------------- the next moved category

  predicate Moving(moves: Moves, x: Option<int>) {
    x.Some? && x.value in moves
  }

  /** The way up from `x` first meets a moved category at level `k`. */
  ghost predicate MeetsAt(t: Tree, moves: Moves, x: Option<int>, k: nat) {
    Moving(moves, Up(t, x, k)) && forall j: nat :: j < k ==> !Moving(moves, Up(t, x, j))
  }

  ghost predicate MeetsNone(t: Tree, moves: Moves, x: Option<int>) {
    forall k: nat :: !Moving(moves, Up(t, x, k))
  }

  /** The first moved category on the way up from `x`, itself included. */
  ghost function Next(t: Tree, moves: Moves, x: Option<int>): (next: Option<int>)
    ensures next.Some? ==> next.value in moves
  {
    if k: nat :| MeetsAt(t, moves, x, k) then Up(t, x, k) else None
  }

  /** The moved categories alone, each below the next one above its new place. */
  ghost function Contracted(t: Tree, moves: Moves): Tree {
    map id | id in moves :: Category(Next(t, moves, moves[id]), "", "", 0)
  }

  lemma {:induction false} MeetsFirst(t: Tree, moves: Moves, x: Option<int>, k: nat) returns (first: nat)
    requires Moving(moves, Up(t, x, k))
    ensures MeetsAt(t, moves, x, first)
  {
    first := 0;
    while !Moving(moves, Up(t, x, first))
      invariant first <= k && forall j: nat :: j < first ==> !Moving(moves, Up(t, x, j))
      decreases k - first
    {
      first := first + 1;
    }
  }

  lemma NextIs(t: Tree, moves: Moves, x: Option<int>)
    ensures Next(t, moves, x).None? ==> MeetsNone(t, moves, x)
    ensures Next(t, moves, x).Some? ==> exists k: nat :: MeetsAt(t, moves, x, k) && Up(t, x, k) == Next(t, moves, x)
  {
    if k: nat :| Moving(moves, Up(t, x, k)) {
      var first := MeetsFirst(t, moves, x, k);
    }
  }

  /** Up to the first moved category a way up is what it was. */
  lemma {:induction false} SameUntilMoved(t: Tree, moves: Moves, x: Option<int>, n: nat)
    requires forall j: nat :: j < n ==> !Moving(moves, Up(t, x, j))
    ensures Up(MovedAll(t, moves), x, n) == Up(t, x, n)
    decreases n
  {
    if 0 < n && x.Some? {
      assert Up(t, x, 0) == x;
      forall j: nat | j < n - 1
        ensures !Moving(moves, Up(t, ParentOf(t, x.value), j))
      {
        assert Up(t, x, j + 1) == Up(t, ParentOf(t, x.value), j);
      }
      SameUntilMoved(t, moves, ParentOf(t, x.value), n - 1);
    }
  }

  lemma GroundedUnlessMoved(t: Tree, moves: Moves, x: Option<int>)
    requires Grounded(t, x) && MeetsNone(t, moves, x)
    ensures Grounded(MovedAll(t, moves), x)
  {
    var n: nat :| Up(t, x, n) == None;
    SameUntilMoved(t, moves, x, n);
  }

  /** The way up from `x` leads to the next moved category. */
  lemma LeadsToNext(t: Tree, moves: Moves, x: Option<int>) returns (k: nat)
    requires Next(t, moves, x).Some?
    ensures Up(MovedAll(t, moves), x, k) == Next(t, moves, x)
  {
    NextIs(t, moves, x);
    k :| MeetsAt(t, moves, x, k) && Up(t, x, k) == Next(t, moves, x);
    SameUntilMoved(t, moves, x, k);
  }

  lemma AllGrounded(t: Tree, x: Option<int>)
    requires Forest(t) && (x.Some? ==> x.value in t)
    ensures Grounded(t, x)
  {
    match x
    case None => assert Up(t, None, 0) == None;
    case Some(id) => assert Grounded(t, Some(id));
  }

  // ---------------------------------------------------------------- ways up end together

  lemma {:induction false} GroundedIfContractedIs(t: Tree, moves: Moves, i: int, n: nat)
    requires Forest(t) && MovesWithin(t, moves) && i in moves
    requires Up(Contracted(t, moves), Some(i), n) == None
    ensures Grounded(MovedAll(t, moves), Some(i))
    decreases n
  {
    var u := MovedAll(t, moves);
    var next := Next(t, moves, moves[i]);
    if next.None? {
      NextIs(t, moves, moves[i]);
      AllGrounded(t, moves[i]);
      GroundedUnlessMoved(t, moves, moves[i]);
      StepUp(u, i, moves[i]);
    } else {
      assert ParentOf(Contracted(t, moves), i) == next;
      GroundedIfContractedIs(t, moves, next.value, n - 1);
      var k := LeadsToNext(t, moves, moves[i]);
      GroundedThere(u, moves[i], k);
      StepUp(u, i, moves[i]);
    }
  }

  lemma StepUp(t: Tree, i: int, parent: Option<int>)
    requires ParentOf(t, i) == parent && Grounded(t, parent)
    ensures Grounded(t, Some(i))
  {
    var n: nat :| Up(t, parent, n) == None;
    assert Up(t, Some(i), n + 1) == None;
  }

  lemma GroundedThere(t: Tree, x: Option<int>, k: nat)
    requires Grounded(t, Up(t, x, k))
    ensures Grounded(t, x)
  {
    var n: nat :| Up(t, Up(t, x, k), n) == None;
    UpTwice(t, x, k, n);
    assert Up(t, x, k + n) == None;
  }

  lemma {:induction false} ContractedIfGrounded(t: Tree, moves: Moves, i: int, n: nat)
    requires MovesWithin(t, moves) && i in moves
    requires Up(MovedAll(t, moves), Some(i), n) == None
    ensures Grounded(Contracted(t, moves), Some(i))
    decreases n
  {
    var u, c := MovedAll(t, moves), Contracted(t, moves);
    var next := Next(t, moves, moves[i]);
    if next.None? {
      assert Up(c, None, 0) == None;
    } else {
      var k := LeadsToNext(t, moves, moves[i]);
      assert Up(u, Some(i), k + 1) == next;
      if n <= k + 1 {
        StaysNone(u, Some(i), n, k + 1 - n);
      } else {
        UpTwice(u, Some(i), k + 1, n - (k + 1));
        ContractedIfGrounded(t, moves, next.value, n - (k + 1));
      }
    }
    StepUp(c, i, next);
  }

  lemma ForestIffContractedIs(t: Tree, moves: Moves)
    requires Forest(t) && MovesWithin(t, moves)
    ensures Forest(MovedAll(t, moves)) <==> Forest(Contracted(t, moves))
  {
    var u, c := MovedAll(t, moves), Contracted(t, moves);
    if Forest(u) {
      forall i | i in c
        ensures Grounded(c, Some(i))
      {
        var n: nat :| Up(u, Some(i), n) == None;
        ContractedIfGrounded(t, moves, i, n);
      }
    }
    if Forest(c) {
      forall x | x in u
        ensures Grounded(u, Some(x))
      {
        WayUpEnds(t, moves, x);
      }
    }
  }

  lemma WayUpEnds(t: Tree, moves: Moves, x: int)
    requires Forest(t) && MovesWithin(t, moves) && Forest(Contracted(t, moves)) && x in t
    ensures Grounded(MovedAll(t, moves), Some(x))
  {
    var next := Next(t, moves, Some(x));
    if next.None? {
      NextIs(t, moves, Some(x));
      GroundedUnlessMoved(t, moves, Some(x));
    } else {
      assert next.value in Contracted(t, moves);
      var n: nat :| Up(Contracted(t, moves), next, n) == None;
      GroundedIfContractedIs(t, moves, next.value, n);
      var k := LeadsToNext(t, moves, Some(x));
      GroundedThere(MovedAll(t, moves), Some(x), k);
    }
  }

  // ---------------------------------------------------------------- forests are what has no cycle

  ghost predicate PassedBefore(t: Tree, x: Option<int>, n: nat, id: int) {
    exists j: nat :: j < n && Up(t, x, j) == Some(id)
  }

  /** The first `n` categories on a way up that neither ends nor comes back. */
  lemma {:induction false} Passed(t: Tree, x: Option<int>, n: nat) returns (ids: set<int>)
    requires ParentsExist(t) && (x.Some? ==> x.value in t)
    requires forall j: nat :: j < n ==> Up(t, x, j).Some?
    requires forall i: nat, j: nat :: i < j < n ==> Up(t, x, i) != Up(t, x, j)
    ensures ids <= t.Keys && |ids| == n
    ensures forall id :: id in ids ==> PassedBefore(t, x, n, id)
  {
    if n == 0 {
      return {};
    }
    var before := Passed(t, x, n - 1);
    var last := Up(t, x, n - 1).value;
    AncestorsExist(t, x, n - 1);
    assert !PassedBefore(t, x, n - 1, last);
    forall id | id in before
      ensures PassedBefore(t, x, n, id)
    {
      StillPassed(t, x, n - 1, id);
    }
    assert PassedBefore(t, x, n, last);
    ids := before + {last};
  }

  lemma StillPassed(t: Tree, x: Option<int>, n: nat, id: int)
    requires PassedBefore(t, x, n, id)
    ensures PassedBefore(t, x, n + 1, id)
  {
    var j: nat :| j < n && Up(t, x, j) == Some(id);
    assert j < n + 1;
  }

  /** In a finite tree a way up that does not end comes to a cycle. */
  lemma EndlessReturns(t: Tree, x: int) returns (y: int, k: nat)
    requires ParentsExist(t) && x in t && !Grounded(t, Some(x))
    ensures y in t && 0 < k && Up(t, Some(y), k) == Some(y)
  {
    var n := |t.Keys| + 1;
    if forall i: nat, j: nat :: i < j < n ==> Up(t, Some(x), i) != Up(t, Some(x), j) {
      var ids := Passed(t, Some(x), n);
      SubsetIsSmaller(ids, t.Keys);
      assert false;
    } else {
      var i: nat, j: nat :| i < j < n && Up(t, Some(x), i) == Up(t, Some(x), j);
      assert Up(t, Some(x), i).Some?;
      AncestorsExist(t, Some(x), i);
      UpTwice(t, Some(x), i, j - i);
      y, k := Up(t, Some(x), i).value, j - i;
    }
  }

  /** With every parent there, the categories form a forest exactly when none is its own ancestor. */
  lemma ForestIffNoCycle(t: Tree)
    requires ParentsExist(t)
    ensures Forest(t) <==> !exists y, k: nat :: y in t && 0 < k && Up(t, Some(y), k) == Some(y)
  {
    if y, k: nat :| y in t && 0 < k && Up(t, Some(y), k) == Some(y) {
      if Grounded(t, Some(y)) {
        ForestHasNoCycle(t, y, k);
      }
    }
    if x :| x in t && !Grounded(t, Some(x)) {
      var y, k := EndlessReturns(t, x);
    }
  }

  /**
   However many moves check one tree and all write: they make a cycle exactly when, going from a moved category to the
   first moved category above its new place and so on, one of them comes back to itself.
   */
  lemma MovesMakeACycleIff(t: Tree, moves: Moves)
    requires Forest(t) && MovesWithin(t, moves)
    ensures !Forest(MovedAll(t, moves)) <==>
            exists i, k: nat :: i in moves && 0 < k && Up(Contracted(t, moves), Some(i), k) == Some(i)
  {
    ForestIffContractedIs(t, moves);
    ForestIffNoCycle(Contracted(t, moves));
  }

  // ---------------------------------------------------------------- three moves

  function Under(parent: Option<int>): Category {
    Category(parent, "", "", 0)
  }

  /** Three roots with a child each. */
  const THREE_TREES: Tree := map[1 := Under(None), 2 := Under(None), 3 := Under(None),
                                 4 := Under(Some(2)), 5 := Under(Some(3)), 6 := Under(Some(1))]

  const ROUND: Moves := map[1 := Some(4), 2 := Some(5), 3 := Some(6)]

  /** Each category below the one before. */
  lemma ChainIsAForest(u: Tree, a: int, x: int, b: int, y: int, c: int, z: int)
    requires u.Keys == {a, x, b, y, c, z} && ParentOf(u, a) == None && ParentOf(u, x) == Some(a)
    requires ParentOf(u, b) == Some(x) && ParentOf(u, y) == Some(b) && ParentOf(u, c) == Some(y) && ParentOf(u, z) == Some(c)
    ensures Forest(u)
  {
    assert Up(u, None, 0) == None;
    StepUp(u, a, None);
    StepUp(u, x, Some(a));
    StepUp(u, b, Some(x));
    StepUp(u, y, Some(b));
    StepUp(u, c, Some(y));
    StepUp(u, z, Some(c));
    assert forall id :: id in u ==> id in {a, x, b, y, c, z};
    assert forall id :: id in u ==> ParentOf(u, id) == u[id].parentId;
  }

  ghost predicate LeaveAForest(moves: Moves) {
    Forest(MovedAll(THREE_TREES, moves))
  }

  /** Without the move of category `a` the other two put everything below `a`. */
  lemma TwoLeaveAForest(a: int)
    requires a in ROUND
    ensures LeaveAForest(ROUND - {a})
  {
    var u := MovedAll(THREE_TREES, ROUND - {a});
    if a == 1 {
      ChainIsAForest(u, 1, 6, 3, 5, 2, 4);
    } else if a == 2 {
      ChainIsAForest(u, 2, 4, 1, 6, 3, 5);
    } else {
      ChainIsAForest(u, 3, 5, 2, 4, 1, 6);
    }
  }

  lemma ThreeTreesAreAForest()
    ensures Forest(THREE_TREES)
    ensures !Below(THREE_TREES, 4, 1) && !Below(THREE_TREES, 5, 2) && !Below(THREE_TREES, 6, 3)
  {
    OnlyItsRoot(THREE_TREES, 4, 2, 1);
    OnlyItsRoot(THREE_TREES, 5, 3, 2);
    OnlyItsRoot(THREE_TREES, 6, 1, 3);
  }

  lemma OnlyItsRoot(t: Tree, x: int, root: int, a: int)
    requires ParentOf(t, x) == Some(root) && ParentOf(t, root) == None && a != x && a != root
    ensures !Below(t, x, a) && Grounded(t, Some(x)) && Grounded(t, Some(root))
  {
    assert Up(t, Some(root), 1) == None && Up(t, Some(x), 2) == None;
    forall k: nat
      ensures Up(t, Some(x), k) != Some(a)
    {
      assert Up(t, Some(x), 1) == Some(root) && Up(t, Some(x), 2) == None;
      if 2 <= k {
        UpTwice(t, Some(x), 2, k - 2);
        NoneUp(t, k - 2);
      }
    }
  }

  /** Each move passes the check, their locks are disjoint, any two of them leave a forest, and all three make a cycle. */
  lemma AnyTwoOfThreeAreFine()
    ensures Forest(THREE_TREES)
    ensures !Below(THREE_TREES, 4, 1) && !Below(THREE_TREES, 5, 2) && !Below(THREE_TREES, 6, 3)
    ensures {1, 4} !! {2, 5} && {1, 4} !! {3, 6} && {2, 5} !! {3, 6}
    ensures LeaveAForest(ROUND - {1}) && LeaveAForest(ROUND - {2}) && LeaveAForest(ROUND - {3})
    ensures MovesWithin(THREE_TREES, ROUND) && !LeaveAForest(ROUND)
  {
    ThreeTreesAreAForest();
    TwoLeaveAForest(1);
    TwoLeaveAForest(2);
    TwoLeaveAForest(3);
    AllThreeMakeACycle();
  }

  lemma AllThreeMakeACycle()
    ensures MovesWithin(THREE_TREES, ROUND) && !LeaveAForest(ROUND)
  {
    var u := MovedAll(THREE_TREES, ROUND);
    assert Up(u, Some(1), 3) == Some(5);
    UpTwice(u, Some(1), 3, 3);
    assert Up(u, Some(5), 3) == Some(1);
    if Forest(u) {
      ForestHasNoCycle(u, 1, 6);
    }
  }
}

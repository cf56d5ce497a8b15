/** The category tree: an adjacency list, and the links of products to categories. */
module Categories {
  import opened Common

  datatype Category = Category(parentId: Option<int>, name: string, slug: string, sortOrder: int)

  /** A product's place in a category. */
  datatype Link = Link(product: int, category: int)

  type Tree = map<int, Category>

  // ---------------------------------------------------------------- ancestors

  function ParentOf(t: Tree, id: int): Option<int> {
    if id in t then t[id].parentId else None
  }

  /** The ancestor `k` levels above, None past the root. */
  function Up(t: Tree, x: Option<int>, k: nat): Option<int>
    decreases k
  {
    if k == 0 then x
    else if x.None? then None
    else Up(t, ParentOf(t, x.value), k - 1)
  }

  /** `x` is `a` or one of its descendants. */
  ghost predicate Below(t: Tree, x: int, a: int) {
    exists k: nat :: Up(t, Some(x), k) == Some(a)
  }

  /** The way up from `x` ends. */
  ghost predicate Grounded(t: Tree, x: Option<int>) {
    exists k: nat :: Up(t, x, k) == None
  }

  ghost predicate ParentsExist(t: Tree) {
    forall id :: id in t && t[id].parentId.Some? ==> t[id].parentId.value in t
  }

  /** Every parent exists and every way up ends. */
  ghost predicate Forest(t: Tree) {
    ParentsExist(t) && forall id :: id in t ==> Grounded(t, Some(id))
  }

  lemma {:induction false} UpTwice(t: Tree, x: Option<int>, j: nat, k: nat)
    ensures Up(t, x, j + k) == Up(t, Up(t, x, j), k)
    decreases j
  {
    if 0 < j && x.Some? {
      UpTwice(t, ParentOf(t, x.value), j - 1, k);
      assert j + k - 1 == (j - 1) + k;
    } else if 0 < j {
      NoneUp(t, k);
    }
  }

  lemma {:induction false} NoneUp(t: Tree, k: nat)
    ensures Up(t, None, k) == None
  {
  }

  lemma StaysNone(t: Tree, x: Option<int>, j: nat, k: nat)
    ensures Up(t, x, j).None? ==> Up(t, x, j + k).None?
  {
    UpTwice(t, x, j, k);
    NoneUp(t, k);
  }

  /** A way up that ends cannot come back to where it started: a forest has no cycle. */
  lemma {:induction false} ForestHasNoCycle(t: Tree, x: int, k: nat)
    requires Grounded(t, Some(x)) && 0 < k
    ensures Up(t, Some(x), k) != Some(x)
  {
    if Up(t, Some(x), k) == Some(x) {
      var n: nat :| Up(t, Some(x), n) == None;
      NeverEnds(t, x, k, n);
    }
  }

  lemma {:induction false} NeverEnds(t: Tree, x: int, k: nat, n: nat)
    requires 0 < k && Up(t, Some(x), k) == Some(x)
    ensures Up(t, Some(x), n).Some?
    decreases n
  {
    if n < k {
      StaysNone(t, Some(x), n, k - n);
    } else {
      UpTwice(t, Some(x), k, n - k);
      NeverEnds(t, x, k, n - k);
    }
  }

  /** The ancestors on the way from `x` up to and including level `n`. */
  ghost predicate Avoids(t: Tree, x: Option<int>, n: nat, id: int) {
    forall k: nat :: k <= n ==> Up(t, x, k) != Some(id)
  }

  /** Changing a category changes no way up that avoids it. */
  lemma {:induction false} SameWayUp(t: Tree, u: Tree, x: Option<int>, n: nat, id: int)
    requires Avoids(t, x, n, id)
    requires forall c :: c != id ==> ParentOf(u, c) == ParentOf(t, c)
    ensures Up(u, x, n) == Up(t, x, n)
    decreases n
  {
    if 0 < n && x.Some? {
      assert Up(t, x, 0) == x;
      forall k: nat | k <= n - 1
        ensures Up(t, ParentOf(t, x.value), k) != Some(id)
      {
        assert Up(t, x, k + 1) == Up(t, ParentOf(t, x.value), k);
      }
      SameWayUp(t, u, ParentOf(t, x.value), n - 1, id);
    }
  }

  /** A category that is not below `id` keeps its ancestors when `id` changes. */
  lemma StaysPut(t: Tree, u: Tree, x: int, id: int)
    requires !Below(t, x, id)
    requires forall c :: c != id ==> ParentOf(u, c) == ParentOf(t, c)
    ensures forall n: nat :: Up(u, Some(x), n) == Up(t, Some(x), n)
    ensures Grounded(t, Some(x)) ==> Grounded(u, Some(x))
    ensures forall a :: Below(u, x, a) <==> Below(t, x, a)
  {
    forall n: nat
      ensures Up(u, Some(x), n) == Up(t, Some(x), n)
    {
      SameWayUp(t, u, Some(x), n, id);
    }
    if n: nat :| Up(t, Some(x), n) == None {
      assert Up(u, Some(x), n) == None;
    }
    forall a
      ensures Below(u, x, a) <==> Below(t, x, a)
    {
      if n: nat :| Up(t, Some(x), n) == Some(a) {
        assert Up(u, Some(x), n) == Some(a);
      }
      if n: nat :| Up(u, Some(x), n) == Some(a) {
        assert Up(t, Some(x), n) == Some(a);
      }
    }
  }

  // ---------------------------------------------------------------- moving a subtree

  function Moved(t: Tree, id: int, parent: Option<int>): Tree
    requires id in t
  {
    t[id := t[id].(parentId := parent)]
  }

  /** The first time a way up meets `id`. */
  lemma {:induction false} FirstMeeting(t: Tree, x: int, id: int, k: nat) returns (first: nat)
    requires Up(t, Some(x), k) == Some(id)
    ensures first <= k && Up(t, Some(x), first) == Some(id)
    ensures forall j: nat :: j < first ==> Up(t, Some(x), j) != Some(id)
  {
    first := 0;
    while Up(t, Some(x), first) != Some(id)
      invariant first <= k && forall j: nat :: j < first ==> Up(t, Some(x), j) != Some(id)
      decreases k - first
    {
      first := first + 1;
    }
  }

  /** A way up that meets `id` still does after `id` moved. */
  lemma StillMeets(t: Tree, u: Tree, x: int, id: int)
    requires Below(t, x, id)
    requires forall c :: c != id ==> ParentOf(u, c) == ParentOf(t, c)
    ensures Below(u, x, id)
  {
    var k: nat :| Up(t, Some(x), k) == Some(id);
    var first := FirstMeeting(t, x, id, k);
    if 0 < first {
      SameWayUp(t, u, Some(x), first - 1, id);
      UpTwice(t, Some(x), first - 1, 1);
      UpTwice(u, Some(x), first - 1, 1);
      var y := Up(t, Some(x), first - 1);
      assert Up(t, y, 1) == Some(id);
      assert y.Some? && Up(t, y, 1) == ParentOf(t, y.value);
      assert Up(u, y, 1) == ParentOf(u, y.value);
      assert Up(u, Some(x), first) == Some(id);
    } else {
      assert Up(u, Some(x), 0) == Some(id);
    }
  }

  lemma GroundedThrough(t: Tree, x: int, id: int)
    requires Below(t, x, id) && Grounded(t, Some(id))
    ensures Grounded(t, Some(x))
  {
    var k: nat :| Up(t, Some(x), k) == Some(id);
    var n: nat :| Up(t, Some(id), n) == None;
    UpTwice(t, Some(x), k, n);
    assert Up(t, Some(x), k + n) == None;
  }

  /** Moving a subtree under a category outside it leaves a forest. */
  lemma MoveKeepsForest(t: Tree, id: int, parent: Option<int>)
    requires Forest(t) && id in t
    requires parent.Some? ==> parent.value in t && !Below(t, parent.value, id)
    ensures Forest(Moved(t, id, parent))
  {
    var u := Moved(t, id, parent);
    if parent.Some? {
      StaysPut(t, u, parent.value, id);
      var n: nat :| Up(u, parent, n) == None;
      assert Up(u, Some(id), n + 1) == None;
    } else {
      assert Up(u, Some(id), 1) == None;
    }
    forall x | x in u
      ensures Grounded(u, Some(x))
    {
      if Below(t, x, id) {
        StillMeets(t, u, x, id);
        GroundedThrough(u, x, id);
      } else {
        StaysPut(t, u, x, id);
      }
    }
  }

  /** Moving a category under itself or its own descendant makes a cycle. */
  lemma MoveIntoOwnSubtree(t: Tree, id: int, parent: int)
    requires Forest(t) && id in t && parent in t && Below(t, parent, id)
    ensures !Forest(Moved(t, id, Some(parent)))
  {
    var u := Moved(t, id, Some(parent));
    StillMeets(t, u, parent, id);
    var k: nat :| Up(u, Some(parent), k) == Some(id);
    assert Up(u, Some(id), k + 1) == Some(id);
    if Forest(u) {
      ForestHasNoCycle(u, id, k + 1);
    }
  }

  /** A new category, a child of `parent`, is on nobody's way up. */
  lemma AddKeepsForest(t: Tree, id: int, c: Category)
    requires Forest(t) && id !in t && (c.parentId.Some? ==> c.parentId.value in t)
    ensures Forest(t[id := c])
    ensures forall x, a :: x in t && Below(t, x, a) ==> Below(t[id := c], x, a)
  {
    var u := t[id := c];
    forall x | x in t
      ensures Grounded(u, Some(x))
      ensures forall a :: Below(t, x, a) ==> Below(u, x, a)
    {
      NotAbove(t, x, id);
      StaysPut(t, u, x, id);
    }
    if c.parentId.Some? {
      var n: nat :| Up(u, c.parentId, n) == None;
      assert Up(u, Some(id), n + 1) == None;
    } else {
      assert Up(u, Some(id), 1) == None;
    }
  }

  lemma NotAbove(t: Tree, x: int, id: int)
    requires ParentsExist(t) && x in t && id !in t
    ensures !Below(t, x, id)
  {
    forall k: nat
      ensures Up(t, Some(x), k) != Some(id)
    {
      AncestorsExist(t, Some(x), k);
    }
  }

  lemma {:induction false} AncestorsExist(t: Tree, x: Option<int>, k: nat)
    requires ParentsExist(t) && (x.Some? ==> x.value in t)
    ensures Up(t, x, k).Some? ==> Up(t, x, k).value in t
    decreases k
  {
    if 0 < k && x.Some? {
      var id := x.value;
      assert id in t;
      AncestorsExist(t, ParentOf(t, id), k - 1);
    }
  }

  // ---------------------------------------------------------------- two moves at once

  /**
   Two moves whose locks are disjoint both check the same tree and both write. The outcome is a forest unless each
   moves under the other's subtree: the locks on the moved category and its new parent do not rule that out.
   */
  lemma TwoMovesMakeACycleIff(t: Tree, a: int, underA: int, b: int, underB: int)
    requires Forest(t) && a in t && b in t && underA in t && underB in t && a != b
    requires !Below(t, underA, a) && !Below(t, underB, b)
    ensures !Forest(Moved(Moved(t, a, Some(underA)), b, Some(underB))) <==> Below(t, underA, b) && Below(t, underB, a)
  {
    var first := Moved(t, a, Some(underA));
    var second := Moved(t, b, Some(underB));
    MoveKeepsForest(t, a, Some(underA));
    MoveKeepsForest(t, b, Some(underB));
    if !Below(t, underB, a) {
      StaysPut(t, first, underB, a);
      MoveKeepsForest(first, b, Some(underB));
    } else if !Below(t, underA, b) {
      StaysPut(t, second, underA, b);
      MoveKeepsForest(second, a, Some(underA));
      assert Moved(second, a, Some(underA)) == Moved(first, b, Some(underB));
    } else {
      StaysPut(t, first, underA, a);
      StillMeets(t, first, underB, a);
      ThenAbove(first, a, underA, b);
      BelowThrough(first, underB, a, b);
      MoveIntoOwnSubtree(first, b, underB);
    }
  }

  lemma ThenAbove(t: Tree, a: int, parent: int, b: int)
    requires ParentOf(t, a) == Some(parent) && Below(t, parent, b)
    ensures Below(t, a, b)
  {
    var k: nat :| Up(t, Some(parent), k) == Some(b);
    assert Up(t, Some(a), k + 1) == Some(b);
  }

  lemma BelowThrough(t: Tree, x: int, y: int, z: int)
    requires Below(t, x, y) && Below(t, y, z)
    ensures Below(t, x, z)
  {
    var j: nat :| Up(t, Some(x), j) == Some(y);
    var k: nat :| Up(t, Some(y), k) == Some(z);
    UpTwice(t, Some(x), j, k);
    assert Up(t, Some(x), j + k) == Some(z);
  }

  const CROSSED: Tree := map[1 := Category(None, "a", "a", 0), 2 := Category(None, "b", "b", 0),
                             3 := Category(Some(2), "c", "c", 0), 4 := Category(Some(1), "d", "d", 0)]

  lemma CrossedIsForest()
    ensures Forest(CROSSED)
    ensures Below(CROSSED, 3, 2) && Below(CROSSED, 4, 1)
    ensures !Below(CROSSED, 3, 1) && !Below(CROSSED, 4, 2)
  {
    var t := CROSSED;
    assert Up(t, Some(1), 1) == None && Up(t, Some(2), 1) == None;
    assert Up(t, Some(3), 1) == Some(2) && Up(t, Some(4), 1) == Some(1);
    assert Up(t, Some(3), 2) == None && Up(t, Some(4), 2) == None;
    forall k: nat
      ensures Up(t, Some(3), k) != Some(1) && Up(t, Some(4), k) != Some(2)
    {
      if 2 <= k {
        UpTwice(t, Some(3), 2, k - 2);
        UpTwice(t, Some(4), 2, k - 2);
        NoneUp(t, k - 2);
      } else {
        assert k == 0 || k == 1;
      }
    }
  }

  /** Such moves exist: `1` under a child of `2` while `2` goes under a child of `1`. */
  lemma DisjointLocksDoNotPreventACycle() returns (t: Tree, a: int, underA: int, b: int, underB: int)
    ensures Forest(t) && a in t && b in t && underA in t && underB in t
    ensures {a, underA} !! {b, underB}
    ensures !Below(t, underA, a) && !Below(t, underB, b)
    ensures !Forest(Moved(Moved(t, a, Some(underA)), b, Some(underB)))
  {
    CrossedIsForest();
    t, a, underA, b, underB := CROSSED, 1, 3, 2, 4;
    TwoMovesMakeACycleIff(t, 1, 3, 2, 4);
  }
}

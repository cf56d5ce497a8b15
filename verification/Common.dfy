/** Small types and facts shared by the models. */
module Common {

  datatype Option<+T> = None | Some(value: T)

  datatype Result<+T, +E> = Ok(value: T) | Err(error: E)

  /** Picks a member of a non-empty set. */
  lemma Witness<T>(s: set<T>) returns (x: T)
    requires s != {}
    ensures x in s
  {
    x :| x in s;
  }

  /** Some member of a non-empty set. */
  method Pick<T(==)>(s: set<T>) returns (x: T)
    requires s != {}
    ensures x in s
  {
    x :| x in s;
  }

  lemma SubsetIsSmaller<T>(a: set<T>, b: set<T>)
    requires a <= b
    ensures |a| <= |b|
  {
    assert b == a + (b - a);
  }

  lemma SameMap<K, V>(a: map<K, V>, b: map<K, V>)
    requires forall k :: k in a <==> k in b
    requires forall k :: k in a ==> a[k] == b[k]
    ensures a == b
  {
    assert a.Keys == b.Keys;
  }

  /** What every step keeps exactly when it fits holds all along exactly when every step fits. */
  lemma {:induction false} AllAlong(holds: nat -> bool, fits: nat -> bool, n: nat)
    requires holds(0) && forall i: nat :: i < n && holds(i) ==> (holds(i + 1) <==> fits(i))
    ensures (forall i: nat :: i <= n ==> holds(i)) <==> forall i: nat :: i < n ==> fits(i)
  {
    if 0 < n {
      AllAlong(holds, fits, n - 1);
      var last := n - 1;
      assert holds(last) ==> (holds(last + 1) <==> fits(last));
    }
  }

  /** A finite non-empty set of integers has a least element. */
  lemma {:induction false} FindLeast(s: set<int>) returns (m: int)
    requires s != {}
    ensures m in s && forall x :: x in s ==> m <= x
  {
    var x := Witness(s);
    if s == {x} {
      return x;
    }
    m := FindLeast(s - {x});
    if x < m {
      m := x;
    }
    forall y | y in s
      ensures m <= y
    {
      assert y == x || y in s - {x};
    }
  }

  lemma LeastExists(s: set<int>)
    requires s != {}
    ensures exists m :: m in s && forall x :: x in s ==> m <= x
  {
    var m := FindLeast(s);
  }

  function Least(s: set<int>): (m: int)
    requires s != {}
    ensures m in s && forall x :: x in s ==> m <= x
  {
    LeastExists(s);
    var m :| m in s && forall x :: x in s ==> m <= x;
    m
  }

  lemma {:induction false} FindGreatest(s: set<int>) returns (m: int)
    requires s != {}
    ensures m in s && forall x :: x in s ==> x <= m
  {
    var x := Witness(s);
    if s == {x} {
      return x;
    }
    m := FindGreatest(s - {x});
    if m < x {
      m := x;
    }
    forall y | y in s
      ensures y <= m
    {
      assert y == x || y in s - {x};
    }
  }

  lemma GreatestExists(s: set<int>)
    requires s != {}
    ensures exists m :: m in s && forall x :: x in s ==> x <= m
  {
    var m := FindGreatest(s);
  }

  function Greatest(s: set<int>): (m: int)
    requires s != {}
    ensures m in s && forall x :: x in s ==> x <= m
  {
    GreatestExists(s);
    var m :| m in s && forall x :: x in s ==> x <= m;
    m
  }

  ghost predicate Ascending(s: seq<int>) {
    forall i, j :: 0 <= i < j < |s| ==> s[i] < s[j]
  }

  function Elements(s: seq<int>): (r: set<int>)
    ensures forall x :: x in r <==> x in s
  {
    set x | x in s
  }

  /** The elements of a set, ORDER BY ascending. */
  function SortedOf(s: set<int>): (r: seq<int>)
    ensures Ascending(r)
    ensures forall x :: x in r <==> x in s
    ensures |r| == |s|
    decreases |s|
  {
    if s == {} then
      []
    else
      var m := Least(s);
      [m] + SortedOf(s - {m})
  }

  /** ORDER BY ... LIMIT n */
  function FirstOf(s: set<int>, n: nat): (r: seq<int>)
    ensures Ascending(r)
    ensures forall x :: x in r ==> x in s
    ensures |r| == if n < |s| then n else |s|
    ensures forall x, y :: x in r && y in s && y < x ==> y in r
  {
    var all := SortedOf(s);
    var r := if n < |all| then all[..n] else all;
    assert forall x, y :: x in r && y in s && y < x ==> y in r by {
      forall x, y | x in r && y in s && y < x
        ensures y in r
      {
        var i :| 0 <= i < |r| && r[i] == x;
        assert y in all;
        var j :| 0 <= j < |all| && all[j] == y;
        assert r[i] == all[i];
        assert j < i;
        assert r[j] == y;
      }
    }
    r
  }

  /** Math.ceil on exact reals. */
  function Ceil(x: real): (n: int)
    ensures n as real - 1.0 < x <= n as real
  {
    -((-x).Floor)
  }

  function Max(a: int, b: int): int {
    if a < b then b else a
  }

  function Min(a: int, b: int): int {
    if a < b then a else b
  }
}

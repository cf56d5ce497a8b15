/** What a claim guarantees to its relay and to the other relays. */
module OutboxClaimTheorems {
  import opened Common
  import opened Outbox
  import opened OutboxClaim

  /** As the last look sees it, the older rows the owner holds are the picked ones. */
  lemma OldersHeldArePicked(s: Store, due: seq<int>, owner: string, until: int, gap1: seq<Statement>, gap2: seq<Statement>,
                            look: Table)
    requires (forall n :: n in due ==> n in s.live) && HoldsNoneBefore(s.live, owner, due)
    requires look == LastLook(s, Elements(due), owner, until, gap1, gap2).live
    ensures forall n, p :: n in due && p in Older(look, n) ==> (look[p].leaseOwner == Some(owner) <==> p in due)
  {
    forall n, p | n in due && p in Older(look, n) && look[p].leaseOwner == Some(owner) && p !in due
      ensures Before(s.live, p, n) && s.live[p].leaseOwner == Some(owner)
    {
      assert p !in Elements(due);
      assert look[n].message == s.live[n].message;
    }
  }

  /** Whatever runs between the statements, and whichever rows the first statement picked. */
  lemma ClaimRowsDeliversKeyPrefixes(s: Store, due: seq<int>, owner: string, now: int, leaseMs: int,
                                     gap1: seq<Statement>, gap2: seq<Statement>, gap3: seq<Statement>, o: Outcome)
    requires Ascending(due) && forall n :: n in due ==> n in s.live
    requires HoldsNoneBefore(s.live, owner, due)
    requires o == ClaimRows(s, due, owner, now, leaseMs, gap1, gap2, gap3)
    ensures DeliversKeyPrefixes(o)
  {
    var picked := Elements(due);
    var look := LastLook(s, picked, owner, now + leaseMs, gap1, gap2);
    OldersHeldArePicked(s, due, owner, now + leaseMs, gap1, gap2, look.live);
    ConcludeDeliversKeyPrefixes(due, look.live, owner, BeforeGivingBack(look, picked, gap3), o);
  }

  /** Whichever rows were skipped as locked. */
  lemma ClaimDeliversKeyPrefixes(s: Store, owner: string, now: int, leaseMs: int, limit: nat, busy: set<int>,
                                 gap1: seq<Statement>, gap2: seq<Statement>, gap3: seq<Statement>, o: Outcome)
    requires OwnerIsClear(s.live, owner, now)
    requires o == Claim(s, owner, now, leaseMs, limit, busy, gap1, gap2, gap3)
    ensures DeliversKeyPrefixes(o)
  {
    var due := FirstOf(ClaimableRows(s.live, now, busy), limit);
    if due != [] {
      assert forall n :: n in due ==> n in ClaimableRows(s.live, now, busy);
      ClaimRowsDeliversKeyPrefixes(s, due, owner, now, leaseMs, gap1, gap2, gap3, o);
    }
  }

  lemma PickedStayLeased(s: Store, due: seq<int>, owner: string, until: int,
                         gap1: seq<Statement>, gap2: seq<Statement>, gap3: seq<Statement>, look: Store, after: Store)
    requires forall n :: n in due ==> n in s.live
    requires look == LastLook(s, Elements(due), owner, until, gap1, gap2)
    requires after == BeforeGivingBack(look, Elements(due), gap3)
    ensures PickedAreLeased(due, look.live, owner, until, s.live, after)
  {
    assert forall n :: n in due ==> n in Elements(due);
  }

  lemma ClaimRowsLeasesExactlyTheBatch(s: Store, due: seq<int>, owner: string, now: int, leaseMs: int,
                                       gap1: seq<Statement>, gap2: seq<Statement>, gap3: seq<Statement>, o: Outcome)
    requires Ascending(due) && forall n :: n in due ==> n in s.live
    requires o == ClaimRows(s, due, owner, now, leaseMs, gap1, gap2, gap3)
    ensures LeasesExactlyTheBatch(o, s.live, owner, now + leaseMs)
  {
    var picked := Elements(due);
    var look := LastLook(s, picked, owner, now + leaseMs, gap1, gap2);
    var after := BeforeGivingBack(look, picked, gap3);
    PickedStayLeased(s, due, owner, now + leaseMs, gap1, gap2, gap3, look, after);
    ConcludeLeasesExactlyTheBatch(due, look.live, owner, now + leaseMs, s.live, after, o);
  }

  lemma ClaimLeasesExactlyTheBatch(s: Store, owner: string, now: int, leaseMs: int, limit: nat, busy: set<int>,
                                   gap1: seq<Statement>, gap2: seq<Statement>, gap3: seq<Statement>, o: Outcome)
    requires o == Claim(s, owner, now, leaseMs, limit, busy, gap1, gap2, gap3)
    ensures LeasesExactlyTheBatch(o, s.live, owner, now + leaseMs)
  {
    var due := FirstOf(ClaimableRows(s.live, now, busy), limit);
    if due != [] {
      ClaimRowsLeasesExactlyTheBatch(s, due, owner, now, leaseMs, gap1, gap2, gap3, o);
    }
  }

  lemma ClaimableDownwardClosed(live: Table, older: int, n: int, now: int)
    requires n in live && older in live
    requires Before(live, older, n) && Claimable(live, n, now)
    ensures Claimable(live, older, now)
  {
    forall p | p in live && Before(live, p, older)
      ensures !Delayed(live[p], now) && !Held(live[p], now)
    {
      assert Before(live, p, n);
    }
  }

  /** With nothing locked, every older row of a picked row's key is claimable, and so picked with it. */
  lemma OldersArePicked(live: Table, now: int, limit: nat, picked: seq<int>)
    requires picked == FirstOf(ClaimableRows(live, now, {}), limit)
    ensures forall n, p :: n in picked && n in live && Before(live, p, n) ==> p in picked
  {
    forall n, p | n in picked && n in live && Before(live, p, n)
      ensures p in picked
    {
      assert n in ClaimableRows(live, now, {});
      ClaimableDownwardClosed(live, p, n, now);
      assert p in ClaimableRows(live, now, {});
    }
  }

  /** Undisturbed, a claim delivers the first `limit` claimable rows and gives nothing back, whoever the owner is. */
  lemma QuietClaimDeliversFirstClaimable(s: Store, owner: string, now: int, leaseMs: int, limit: nat)
    ensures var o := Claim(s, owner, now, leaseMs, limit, {}, [], [], []);
            && o.back == []
            && o.batch == FirstOf(ClaimableRows(s.live, now, {}), limit)
            && o.final.dead == s.dead && o.final.live.Keys == s.live.Keys
            && (forall n :: n in s.live && n !in o.batch ==> o.final.live[n] == s.live[n])
  {
    var o := Claim(s, owner, now, leaseMs, limit, {}, [], [], []);
    var due := FirstOf(ClaimableRows(s.live, now, {}), limit);
    if due != [] {
      assert forall n :: n in due ==> n in ClaimableRows(s.live, now, {});
      OldersArePicked(s.live, now, limit, due);
      ClaimRowsDeliversKeyPrefixes(s, due, owner, now, leaseMs, [], [], [], o);
      forall n | n in o.picked
        ensures n in o.lastLook && !Detached(o.lastLook, n, o.picked)
      {
        forall p | p in Older(o.lastLook, n)
          ensures p in o.picked
        {
          assert Before(s.live, p, n);
        }
      }
      HeadIsMember(o.back);
      SameElementsSameOrder(o.batch, o.picked);
    }
  }

  lemma HeadIsMember(s: seq<int>)
    ensures s == [] || s[0] in s
  {
  }

  lemma {:induction false} SameElementsSameOrder(a: seq<int>, b: seq<int>)
    requires Ascending(a) && Ascending(b)
    requires forall x :: x in a <==> x in b
    ensures a == b
    decreases |a|
  {
    HeadIsMember(b);
    if a != [] {
      assert a[0] in a;
      var i :| 0 <= i < |b| && b[i] == a[0];
      assert b[0] in b;
      var j :| 0 <= j < |a| && a[j] == b[0];
      assert a[0] == b[0];
      forall x
        ensures x in a[1..] <==> x in b[1..]
      {
        if x in a[1..] {
          assert x in a && x != a[0];
        }
        if x in b[1..] {
          assert x in b && x != b[0];
        }
      }
      SameElementsSameOrder(a[1..], b[1..]);
    }
  }

  lemma OlderIs(live: Table, p: int, n: int)
    requires n in live
    ensures p in Older(live, n) <==> Before(live, p, n)
  {
  }

  lemma OldestIsClaimable(live: Table, n: int, now: int)
    requires n in live && !Delayed(live[n], now) && !Held(live[n], now) && Older(live, n) == {}
    ensures n in ClaimableRows(live, now, {})
  {
    forall p {
      OlderIs(live, p, n);
    }
  }

  lemma SomethingFirst(rows: set<int>, n: int, limit: nat)
    requires n in rows && 0 < limit
    ensures FirstOf(rows, limit) != []
  {
    assert rows != {};
  }

  /** A key whose oldest row is due and not leased (any more) cannot be starved by a quiet claim. */
  lemma QuietClaimMakesProgress(s: Store, owner: string, now: int, leaseMs: int, limit: nat, n: int)
    requires 0 < limit
    requires n in s.live && !Delayed(s.live[n], now) && !Held(s.live[n], now) && Older(s.live, n) == {}
    ensures Claim(s, owner, now, leaseMs, limit, {}, [], [], []).batch != []
  {
    OldestIsClaimable(s.live, n, now);
    SomethingFirst(ClaimableRows(s.live, now, {}), n, limit);
    QuietClaimDeliversFirstClaimable(s, owner, now, leaseMs, limit);
  }

  // ---------------------------------------------------------------- which owners may claim

  ghost predicate NoneGivenBack(rows: seq<int>, look: Table, owner: string) {
    forall n :: n in rows ==> n in look && !GivenBack(look, n, owner, {})
  }

  lemma {:induction false} NothingGivenBack(rows: seq<int>, look: Table, owner: string)
    requires NoneGivenBack(rows, look, owner)
    ensures (forall n :: n in rows ==> n in look) && Sift(rows, look, owner, {}) == (rows, [])
    decreases |rows|
  {
    if rows != [] {
      assert rows[0] in rows;
      NothingGivenBack(rows[1..], look, owner);
      assert [rows[0]] + rows[1..] == rows;
    }
  }

  /** With row `p` alone locked, every older row of a picked row's key is picked or is `p`. */
  lemma OldersArePickedOr(live: Table, now: int, p: int, n: int)
    requires n in ClaimableRows(live, now, {p})
    ensures forall q :: q in Older(live, n) ==> q == p || q in ClaimableRows(live, now, {p})
  {
    forall q | q in Older(live, n)
      ensures q == p || q in ClaimableRows(live, now, {p})
    {
      ClaimableDownwardClosed(live, q, n, now);
    }
  }

  ghost predicate PicksAllBut(live: Table, now: int, p: int, due: seq<int>) {
    forall n :: n in due <==> n in ClaimableRows(live, now, {p})
  }

  /** The last look takes `p` for one of its own rows, so it gives nothing back. */
  lemma OwnNameHides(s: Store, due: seq<int>, owner: string, now: int, until: int, p: int, look: Table)
    requires PicksAllBut(s.live, now, p, due)
    requires p in s.live && s.live[p].leaseOwner == Some(owner)
    requires look == LastLook(s, Elements(due), owner, until, [], []).live
    ensures NoneGivenBack(due, look, owner)
    ensures p in look && p !in due && forall n :: n in due ==> (p in Older(look, n) <==> Before(s.live, p, n))
  {
    assert forall n :: n in Elements(due) <==> n in due;
    assert look.Keys == s.live.Keys;
    assert forall q :: q in s.live ==> look[q].message == s.live[q].message;
    forall n | n in due
      ensures n in look && !GivenBack(look, n, owner, {})
    {
      assert Older(look, n) == Older(s.live, n);
      OldersArePickedOr(s.live, now, p, n);
      assert forall q :: q in Older(look, n) ==> look[q].leaseOwner == Some(owner);
    }
  }

  /** A younger row is delivered although `p` is not. */
  lemma PassesOver(s: Store, due: seq<int>, owner: string, p: int, n: int, now: int, leaseMs: int,
                   look: Store, after: Store, o: Outcome)
    requires PicksAllBut(s.live, now, p, due)
    requires n in due && n in s.live && Before(s.live, p, n) && s.live[p].leaseOwner == Some(owner)
    requires forall m :: m in due ==> m in s.live
    requires look == LastLook(s, Elements(due), owner, now + leaseMs, [], [])
    requires (forall m :: m in due ==> m in look.live) && o == Conclude(due, look.live, owner, after)
    ensures !DeliversKeyPrefixes(o)
  {
    OwnNameHides(s, due, owner, now, now + leaseMs, p, look.live);
    ConcludePasses(due, look.live, owner, p, n, after, o);
  }

  lemma ConcludePasses(due: seq<int>, look: Table, owner: string, p: int, n: int, after: Store, o: Outcome)
    requires NoneGivenBack(due, look, owner)
    requires n in due && n in look && p !in due && p in Older(look, n)
    requires (forall m :: m in due ==> m in look) && o == Conclude(due, look, owner, after)
    ensures !DeliversKeyPrefixes(o)
  {
    NothingGivenBack(due, look, owner);
    assert n in o.batch && p !in o.batch && p in o.lastLook && Before(o.lastLook, p, n);
  }

  lemma AllOf(rows: set<int>, limit: nat)
    requires |rows| <= limit
    ensures forall n :: n in FirstOf(rows, limit) <==> n in rows
  {
    assert FirstOf(rows, limit) == SortedOf(rows);
  }

  /**
   It takes one row under the owner's own name that another connection has locked: a claim that is not cut off by its
   limit delivers rows of the key that come after it.
   */
  lemma UnclearOwnerBreaksKeyOrder(s: Store, owner: string, p: int, n: int, now: int, leaseMs: int, limit: nat)
    requires n in s.live && Before(s.live, p, n) && Claimable(s.live, n, now) && s.live[p].leaseOwner == Some(owner)
    requires |ClaimableRows(s.live, now, {p})| <= limit
    ensures !DeliversKeyPrefixes(Claim(s, owner, now, leaseMs, limit, {p}, [], [], []))
  {
    var rows := ClaimableRows(s.live, now, {p});
    var due := FirstOf(rows, limit);
    AllOf(rows, limit);
    assert n in rows;
    assert PicksAllBut(s.live, now, p, due);
    var look := LastLook(s, Elements(due), owner, now + leaseMs, [], []);
    var after := BeforeGivingBack(look, Elements(due), []);
    PassesOver(s, due, owner, p, n, now, leaseMs, look, after, Conclude(due, look.live, owner, after));
  }

  lemma UnclearOwnerHasABadClaim(s: Store, owner: string, now: int) returns (limit: nat, busy: set<int>)
    requires !OwnerIsClear(s.live, owner, now)
    ensures !DeliversKeyPrefixes(Claim(s, owner, now, 0, limit, busy, [], [], []))
  {
    var n, p :| n in s.live && Before(s.live, p, n) && Claimable(s.live, n, now) && s.live[p].leaseOwner == Some(owner);
    limit, busy := |ClaimableRows(s.live, now, {p})|, {p};
    UnclearOwnerBreaksKeyOrder(s, owner, p, n, now, 0, limit);
  }

  /**
   Exactly the clear owners get gap-free, oldest-first batches from every claim, whatever the limit, the locked rows and
   the statements in between.
   */
  lemma KeyPrefixesIffOwnerIsClear(s: Store, owner: string, now: int)
    ensures OwnerIsClear(s.live, owner, now) <==>
            forall leaseMs: int, limit: nat, busy: set<int>, gap1: seq<Statement>, gap2: seq<Statement>, gap3: seq<Statement> ::
              DeliversKeyPrefixes(Claim(s, owner, now, leaseMs, limit, busy, gap1, gap2, gap3))
  {
    if OwnerIsClear(s.live, owner, now) {
      forall leaseMs: int, limit: nat, busy: set<int>, gap1: seq<Statement>, gap2: seq<Statement>, gap3: seq<Statement>
        ensures DeliversKeyPrefixes(Claim(s, owner, now, leaseMs, limit, busy, gap1, gap2, gap3))
      {
        ClaimDeliversKeyPrefixes(s, owner, now, leaseMs, limit, busy, gap1, gap2, gap3,
                                 Claim(s, owner, now, leaseMs, limit, busy, gap1, gap2, gap3));
      }
    } else {
      var limit, busy := UnclearOwnerHasABadClaim(s, owner, now);
    }
  }

  function Sample(owner: Option<string>, until: Option<int>, id: string): Row {
    Row(Message(id, "t", "p", Some("k"), 0), 0, 0, None, [], owner, until)
  }

  /** Row 1 was claimed by "a" until time 4; row 2 of the same key is free. */
  function LeftoverLease(): Store {
    Store(map[1 := Sample(Some("a"), Some(4), "x"), 2 := Sample(None, None, "y")], map[])
  }

  /** So a relay that crashed and comes back under its old name is handed row 2 while row 1 is locked by someone else. */
  lemma StaleOwnerBreaksKeyOrder()
    ensures LeftoverLease().live[1].leaseUntil == Some(4)
    ensures !DeliversKeyPrefixes(Claim(LeftoverLease(), "a", 10, 5, 2, {1}, [], [], []))
  {
    var s := LeftoverLease();
    assert Before(s.live, 1, 2) && Claimable(s.live, 2, 10) && s.live[1].leaseOwner == Some("a");
    SubsetIsSmaller(ClaimableRows(s.live, 10, {1}), {2});
    UnclearOwnerBreaksKeyOrder(s, "a", 1, 2, 10, 5, 2);
  }
}

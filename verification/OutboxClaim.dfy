/**
 A relay's claim: four statements of one transaction, with statements of other connections running
 between any two of them.
 */
module OutboxClaim {
  import opened Common
  import opened Outbox

  predicate Held(r: Row, now: int) {
    r.leaseUntil.Some? && now < r.leaseUntil.value
  }

  predicate Delayed(r: Row, now: int) {
    now < r.availableAt
  }

  /** `older` and `n` share a key and `older` was numbered first. */
  predicate Before(live: Table, older: int, n: int)
    requires n in live
  {
    older in live && older < n && live[n].message.key.Some? && live[older].message.key == live[n].message.key
  }

  /** The WHERE clause of the claim. */
  predicate Claimable(live: Table, n: int, now: int)
    requires n in live
  {
    && !Delayed(live[n], now)
    && !Held(live[n], now)
    && !exists older :: older in live && Before(live, older, n) && (Delayed(live[older], now) || Held(live[older], now))
  }

  function Older(live: Table, n: int): set<int>
    requires n in live
  {
    set p | p in live && Before(live, p, n)
  }

  /** The scalar subquery of the last look: does the row just before `n` in its key belong to others? */
  function BehindOther(live: Table, n: int, owner: string): Option<bool>
    requires n in live
  {
    var older := Older(live, n);
    if older == {} then None else Some(live[Greatest(older)].leaseOwner != Some(owner))
  }

  /** One pass over the picked rows in `seq` order: what is delivered, and what is given back. */
  function Sift(rows: seq<int>, live: Table, owner: string, blocked: set<string>): (r: (seq<int>, seq<int>))
    requires forall n :: n in rows ==> n in live
    ensures forall n :: n in rows <==> n in r.0 || n in r.1
    decreases |rows|
  {
    if rows == [] then ([], [])
    else
      var n := rows[0];
      if GivenBack(live, n, owner, blocked) then
        var (batch, back) := Sift(rows[1..], live, owner, blocked + {live[n].message.key.value});
        (batch, [n] + back)
      else
        var (batch, back) := Sift(rows[1..], live, owner, blocked);
        ([n] + batch, back)
  }

  /** `lastLook` is the table as the third statement reads it, `final` the store after the commit. */
  datatype Outcome = Outcome(picked: seq<int>, batch: seq<int>, back: seq<int>, lastLook: Table, final: Store)

  function ClaimableRows(live: Table, now: int, busy: set<int>): set<int> {
    set n | n in live && n !in busy && Claimable(live, n, now)
  }

  /** The store as the last look sees it: `gap1`, the leases, `gap2`. */
  function LastLook(s: Store, picked: set<int>, owner: string, until: int,
                    gap1: seq<Statement>, gap2: seq<Statement>): (t: Store)
    requires forall n :: n in picked ==> n in s.live
    ensures forall n :: n in picked ==> n in t.live
    ensures forall n :: n in picked ==> t.live[n] == s.live[n].(leaseOwner := Some(owner), leaseUntil := Some(until))
    ensures forall n :: n in t.live && t.live[n].leaseOwner == Some(owner) && n !in picked ==>
              n in s.live && s.live[n].leaseOwner == Some(owner) && s.live[n].message == t.live[n].message
  {
    var s1 := RunBeside(s, gap1, picked);
    RunBesideIsMild(s, gap1, picked);
    var s2 := s1.(live := LeaseRows(s1.live, picked, owner, until));
    RunBesideIsMild(s2, gap2, picked);
    RunBeside(s2, gap2, picked)
  }

  /** The store as the last statement finds it. */
  function BeforeGivingBack(look: Store, picked: set<int>, gap3: seq<Statement>): (t: Store)
    requires forall n :: n in picked ==> n in look.live
    ensures forall n :: n in picked ==> n in t.live && t.live[n] == look.live[n]
  {
    RunBesideIsMild(look, gap3, picked);
    RunBeside(look, gap3, picked)
  }

  function GiveBack(s: Store, back: seq<int>): Store {
    if back == [] then s else s.(live := Rewrite(s.live, Elements(back), Unleased))
  }

  /** The statements after the first, on any rows it may have picked and locked. */
  function ClaimRows(s: Store, due: seq<int>, owner: string, now: int, leaseMs: int,
                     gap1: seq<Statement>, gap2: seq<Statement>, gap3: seq<Statement>): Outcome
    requires forall n :: n in due ==> n in s.live
  {
    var picked := Elements(due);
    var look := LastLook(s, picked, owner, now + leaseMs, gap1, gap2);
    Conclude(due, look.live, owner, BeforeGivingBack(look, picked, gap3))
  }

  /**
   A whole claim. `busy` are the rows locked by other connections when the first statement runs;
   `gap1`, `gap2` and `gap3` are the statements others run between its statements.
   */
  function Claim(s: Store, owner: string, now: int, leaseMs: int, limit: nat, busy: set<int>,
                 gap1: seq<Statement>, gap2: seq<Statement>, gap3: seq<Statement>): Outcome
  {
    var due := FirstOf(ClaimableRows(s.live, now, busy), limit);
    if due == [] then Outcome([], [], [], s.live, s)
    else ClaimRows(s, due, owner, now, leaseMs, gap1, gap2, gap3)
  }

  /** The last look's verdict on the picked rows, and the last statement. */
  function Conclude(due: seq<int>, look: Table, owner: string, after: Store): Outcome
    requires forall n :: n in due ==> n in look
  {
    var (batch, back) := Sift(due, look, owner, {});
    Outcome(due, batch, back, look, GiveBack(after, back))
  }

  /** Some older row of the key is not among the picked ones. */
  predicate Detached(live: Table, n: int, picked: seq<int>)
    requires n in live
  {
    exists p :: p in Older(live, n) && p !in picked
  }

  /** The row before `n` in its key decides: either it is not ours, or `n` inherits its fate. */
  lemma DetachedByPredecessor(live: Table, n: int, owner: string, picked: seq<int>)
    requires n in live
    requires forall p :: p in Older(live, n) ==> (live[p].leaseOwner == Some(owner) <==> p in picked)
    ensures Older(live, n) == {} ==> !Detached(live, n, picked) && BehindOther(live, n, owner) == None
    ensures Older(live, n) != {} ==>
              var p := Greatest(Older(live, n));
              && live[p].message.key == live[n].message.key && live[p].message.key.Some? && p < n
              && (BehindOther(live, n, owner) == Some(true) <==> p !in picked)
              && (Detached(live, n, picked) <==> p !in picked || Detached(live, p, picked))
  {
    if Older(live, n) != {} {
      var p := Greatest(Older(live, n));
      assert Older(live, n) == Older(live, p) + {p};
      if Detached(live, n, picked) && p in picked {
        var q :| q in Older(live, n) && q !in picked;
        assert q in Older(live, p);
      }
    }
  }

  ghost predicate BlockedBy(rows: seq<int>, i: nat, live: Table, k: string)
    requires i <= |rows|
  {
    exists j :: 0 <= j < i && rows[j] in live && live[rows[j]].message.key == Some(k) && Detached(live, rows[j], rows)
  }

  ghost predicate SiftState(rows: seq<int>, i: nat, live: Table, owner: string, blocked: set<string>) {
    && i <= |rows| && Ascending(rows)
    && (forall n :: n in rows ==> n in live)
    && (forall n, p :: n in rows && p in Older(live, n) ==> (live[p].leaseOwner == Some(owner) <==> p in rows))
    && (forall k :: k in blocked <==> BlockedBy(rows, i, live, k))
  }

  predicate GivenBack(live: Table, n: int, owner: string, blocked: set<string>)
    requires n in live
  {
    var key := live[n].message.key;
    key.Some? && (BehindOther(live, n, owner) == Some(true) || key.value in blocked)
  }

  lemma GivenIffDetached(rows: seq<int>, i: nat, live: Table, owner: string, blocked: set<string>)
    requires SiftState(rows, i, live, owner, blocked) && i < |rows|
    ensures rows[i] in live
    ensures Detached(live, rows[i], rows) <==> GivenBack(live, rows[i], owner, blocked)
  {
    var n := rows[i];
    var key := live[n].message.key;
    DetachedByPredecessor(live, n, owner, rows);
    if Older(live, n) != {} && Detached(live, n, rows) {
      var p := Greatest(Older(live, n));
      if p in rows {
        var j :| 0 <= j < |rows| && rows[j] == p;
        assert j < i;
        assert live[rows[j]].message.key == key && Detached(live, rows[j], rows);
      }
    }
    if key.Some? && key.value in blocked {
      var j :| 0 <= j < i && rows[j] in live && live[rows[j]].message.key == Some(key.value) && Detached(live, rows[j], rows);
      var q :| q in Older(live, rows[j]) && q !in rows;
      assert q in Older(live, n);
    }
  }

  lemma BlockedGrows(rows: seq<int>, i: nat, live: Table, owner: string, blocked: set<string>)
    requires SiftState(rows, i, live, owner, blocked) && i < |rows|
    ensures rows[i] in live
    ensures SiftState(rows, i + 1, live, owner,
                      if GivenBack(live, rows[i], owner, blocked) then blocked + {live[rows[i]].message.key.value} else blocked)
  {
    GivenIffDetached(rows, i, live, owner, blocked);
    forall k
      ensures BlockedBy(rows, i + 1, live, k) <==>
                BlockedBy(rows, i, live, k) || (live[rows[i]].message.key == Some(k) && Detached(live, rows[i], rows))
    {
    }
  }

  lemma PrependAscending(rows: seq<int>, i: nat, sub: seq<int>)
    requires Ascending(rows) && i < |rows| && Ascending(sub)
    requires forall n :: n in sub ==> n in rows[i + 1..]
    ensures Ascending([rows[i]] + sub)
  {
    forall j | 0 <= j < |sub|
      ensures rows[i] < sub[j]
    {
      assert sub[j] in sub;
    }
  }

  /** The pass gives back exactly the detached rows. */
  lemma {:induction false} SiftExact(rows: seq<int>, i: nat, live: Table, owner: string, blocked: set<string>)
    requires SiftState(rows, i, live, owner, blocked)
    ensures forall n :: n in rows[i..] ==> n in live
    ensures var (batch, back) := Sift(rows[i..], live, owner, blocked);
            && Ascending(batch) && Ascending(back)
            && (forall n :: n in batch <==> n in rows[i..] && !Detached(live, n, rows))
            && (forall n :: n in back <==> n in rows[i..] && Detached(live, n, rows))
    decreases |rows| - i
  {
    if i < |rows| {
      var n := rows[i];
      GivenIffDetached(rows, i, live, owner, blocked);
      BlockedGrows(rows, i, live, owner, blocked);
      var blocked' := if GivenBack(live, n, owner, blocked) then blocked + {live[n].message.key.value} else blocked;
      SiftExact(rows, i + 1, live, owner, blocked');
      assert rows[i..][1..] == rows[i + 1..];
      assert rows[i..] == [n] + rows[i + 1..];
      var (batch, back) := Sift(rows[i + 1..], live, owner, blocked');
      PrependAscending(rows, i, batch);
      PrependAscending(rows, i, back);
    }
  }

  lemma {:induction false} SiftSeparates(rows: seq<int>, live: Table, owner: string, blocked: set<string>)
    requires Ascending(rows)
    requires forall n :: n in rows ==> n in live
    ensures forall n :: n in Sift(rows, live, owner, blocked).0 ==> n !in Sift(rows, live, owner, blocked).1
    decreases |rows|
  {
    if rows != [] {
      var n := rows[0];
      assert n !in rows[1..];
      assert Ascending(rows[1..]);
      var blocked' := if GivenBack(live, n, owner, blocked) then blocked + {live[n].message.key.value} else blocked;
      SiftSeparates(rows[1..], live, owner, blocked');
      var rest := Sift(rows[1..], live, owner, blocked');
      assert n !in rest.0 && n !in rest.1;
      assert Sift(rows, live, owner, blocked) ==
             if GivenBack(live, n, owner, blocked) then (rest.0, [n] + rest.1) else ([n] + rest.0, rest.1);
    }
  }

  /** Of the older rows of the picked rows' keys, the owner holds none that was not picked with them. */
  ghost predicate HoldsNoneBefore(live: Table, owner: string, picked: seq<int>) {
    forall n, p :: n in picked && n in live && Before(live, p, n) && live[p].leaseOwner == Some(owner) ==> p in picked
  }

  /** The owner's name is on no row that stands before a claimable one in its key, not even from a lease that ran out. */
  ghost predicate OwnerIsClear(live: Table, owner: string, now: int) {
    forall n, p :: n in live && Before(live, p, n) && Claimable(live, n, now) ==> live[p].leaseOwner != Some(owner)
  }

  /**
   Every delivered row has all the older live rows of its key delivered with it; a row goes back
   exactly when some older live row of its key was not picked, and then so do the younger picked
   rows of its key.
   */
  ghost predicate DeliversKeyPrefixes(o: Outcome) {
    && Ascending(o.batch) && Ascending(o.back)
    && (forall n :: n in o.picked ==> n in o.lastLook)
    && (forall n :: n in o.batch <==> n in o.picked && !Detached(o.lastLook, n, o.picked))
    && (forall n :: n in o.back <==> n in o.picked && Detached(o.lastLook, n, o.picked))
    && (forall n, p :: n in o.batch && p in o.lastLook && Before(o.lastLook, p, n) ==> p in o.batch)
    && (forall n, m :: n in o.back && m in o.picked && Before(o.lastLook, n, m) ==> m in o.back)
  }

  lemma ConcludeDeliversKeyPrefixes(due: seq<int>, look: Table, owner: string, after: Store, o: Outcome)
    requires Ascending(due) && forall n :: n in due ==> n in look
    requires forall n, p :: n in due && p in Older(look, n) ==> (look[p].leaseOwner == Some(owner) <==> p in due)
    requires o == Conclude(due, look, owner, after)
    ensures DeliversKeyPrefixes(o)
  {
    assert due[0..] == due;
    SiftExact(due, 0, look, owner, {});
    forall n, p | n in o.batch && p in look && Before(look, p, n)
      ensures p in o.batch
    {
      assert p in Older(look, n);
      assert forall q :: q in Older(look, p) ==> q in Older(look, n);
    }
    forall n, m | n in o.back && m in due && Before(look, n, m)
      ensures m in o.back
    {
      assert forall q :: q in Older(look, n) ==> q in Older(look, m);
    }
  }

  /** After the commit the delivered rows are leased to the owner, the returned ones to nobody. */
  ghost predicate LeasesExactlyTheBatch(o: Outcome, live: Table, owner: string, until: int) {
    && (forall n :: n in o.picked <==> n in o.batch || n in o.back)
    && (forall n :: n in o.picked ==> n in live && n in o.final.live)
    && (forall n :: n in o.batch ==> n !in o.back && o.final.live[n] ==
                                       live[n].(leaseOwner := Some(owner), leaseUntil := Some(until)))
    && (forall n :: n in o.back ==> o.final.live[n] == Unleased(live[n]))
  }

  ghost predicate PickedAreLeased(due: seq<int>, look: Table, owner: string, until: int, live: Table, after: Store) {
    forall n :: n in due ==> n in live && n in look && n in after.live && after.live[n] == look[n] &&
                             look[n] == live[n].(leaseOwner := Some(owner), leaseUntil := Some(until))
  }

  lemma ConcludeLeasesExactlyTheBatch(due: seq<int>, look: Table, owner: string, until: int, live: Table,
                                      after: Store, o: Outcome)
    requires Ascending(due)
    requires PickedAreLeased(due, look, owner, until, live, after)
    requires o == Conclude(due, look, owner, after)
    ensures LeasesExactlyTheBatch(o, live, owner, until)
  {
    SiftSeparates(due, look, owner, {});
  }

  function ToDelivery(r: Row): Delivery {
    Delivery(r.message, r.availableAt, r.attempts, r.lastError)
  }

  /** What is left of the pass completes what is done. */
  predicate Sifting(rows: seq<int>, i: nat, live: Table, owner: string, blocked: set<string>, batch: seq<int>, back: seq<int>)
    requires i <= |rows| && forall n :: n in rows ==> n in live
  {
    var rest := Sift(rows[i..], live, owner, blocked);
    Sift(rows, live, owner, {}).0 == batch + rest.0 && Sift(rows, live, owner, {}).1 == back + rest.1
  }

  lemma SiftsOneMore(rows: seq<int>, i: nat, live: Table, owner: string, blocked: set<string>, batch: seq<int>, back: seq<int>)
    requires i < |rows| && (forall n :: n in rows ==> n in live) && Sifting(rows, i, live, owner, blocked, batch, back)
    ensures if GivenBack(live, rows[i], owner, blocked) then
              Sifting(rows, i + 1, live, owner, blocked + {live[rows[i]].message.key.value}, batch, back + [rows[i]])
            else Sifting(rows, i + 1, live, owner, blocked, batch + [rows[i]], back)
  {
    assert rows[i..][0] == rows[i] && rows[i..][1..] == rows[i + 1..];
    var blocked' := if GivenBack(live, rows[i], owner, blocked) then blocked + {live[rows[i]].message.key.value} else blocked;
    var rest := Sift(rows[i + 1..], live, owner, blocked');
    assert batch + ([rows[i]] + rest.0) == (batch + [rows[i]]) + rest.0;
    assert back + ([rows[i]] + rest.1) == (back + [rows[i]]) + rest.1;
  }

  function Deliveries(numbers: seq<int>, live: Table): seq<Delivery>
    requires forall n :: n in numbers ==> n in live
    decreases |numbers|
  {
    if numbers == [] then []
    else
      var n := numbers[0];
      assert n in numbers;
      [ToDelivery(live[n])] + Deliveries(numbers[1..], live)
  }

  lemma {:induction false} DeliveriesAre(numbers: seq<int>, live: Table)
    requires forall n :: n in numbers ==> n in live
    ensures |Deliveries(numbers, live)| == |numbers|
    ensures forall i :: 0 <= i < |numbers| ==>
              var row := live[numbers[i]];
              Deliveries(numbers, live)[i] == Delivery(row.message, row.availableAt, row.attempts, row.lastError)
    decreases |numbers|
  {
    if numbers != [] {
      assert numbers[0] in numbers;
      DeliveriesAre(numbers[1..], live);
    }
  }

  lemma {:induction false} DeliveriesAppend(numbers: seq<int>, n: int, live: Table)
    requires n in live && forall m :: m in numbers ==> m in live
    ensures Deliveries(numbers + [n], live) == Deliveries(numbers, live) + [ToDelivery(live[n])]
    decreases |numbers|
  {
    if numbers != [] {
      assert (numbers + [n])[1..] == numbers[1..] + [n];
      DeliveriesAppend(numbers[1..], n, live);
    }
  }
}

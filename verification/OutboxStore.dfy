/** The store's methods, each proved against the statements it runs. */
module OutboxStore {
  import opened Common
  import opened Outbox
  import opened OutboxClaim

  datatype StoreError = EmptyFilterRefused | UniqueViolation

  lemma LeasedByIs(live: Table, id: string, owner: string)
    ensures LeasedBy(live, id, owner) != {} <==>
            exists n :: n in live && live[n].message.id == id && live[n].leaseOwner == Some(owner)
  {
    if n :| n in live && live[n].message.id == id && live[n].leaseOwner == Some(owner) {
      assert n in LeasedBy(live, id, owner);
    }
    if LeasedBy(live, id, owner) != {} {
      var n := Witness(LeasedBy(live, id, owner));
    }
  }

  lemma AtMostOneLeased(live: Table, id: string, owner: string)
    requires UniqueIds(live)
    ensures |LeasedBy(live, id, owner)| <= 1
  {
    var hit := LeasedBy(live, id, owner);
    if hit != {} {
      var n := Witness(hit);
      forall m | m in hit
        ensures m == n
      {
        assert live[m].message.id == live[n].message.id;
      }
      assert hit == {n};
    }
  }

  lemma FewerKeys<V>(m: map<string, V>, gone: set<string>)
    requires forall i :: i in gone ==> i in m
    ensures |(m - gone).Keys| == |m.Keys| - |gone|
  {
    assert (m - gone).Keys == m.Keys - gone;
    assert m.Keys == (m.Keys - gone) + gone;
  }

  class DrizzleOutboxStore {
    var live: Table
    var dead: map<string, DeadLetter>

    /** The table's unique index on `id`. */
    ghost predicate Valid()
      reads this
    {
      UniqueIds(live)
    }

    function Content(): Store
      reads this
    {
      Store(live, dead)
    }

    /** True when exactly one row matched: the owner still held the lease. */
    method MarkPublished(id: string, owner: string) returns (ok: bool)
      requires Valid()
      modifies this
      ensures Valid()
      ensures Content() == Step(old(Content()), Publish(id, owner))
      ensures ok <==> exists n :: n in old(live) && old(live)[n].message.id == id && old(live)[n].leaseOwner == Some(owner)
      ensures !ok ==> Content() == old(Content())
      ensures ok ==> forall n :: n in live ==> live[n].message.id != id
    {
      AtMostOneLeased(live, id, owner);
      LeasedByIs(live, id, owner);
      var deleted := LeasedBy(live, id, owner);
      if deleted != {} {
        ghost var n := Witness(deleted);
        assert forall m :: m in live && m !in deleted ==> live[m].message.id != live[n].message.id;
      }
      live := live - deleted;
      ok := |deleted| == 1;
    }

    method Reschedule(id: string, owner: string, attempts: int, availableAt: int, failure: Failure) returns (ok: bool)
      requires Valid()
      modifies this
      ensures Valid()
      ensures Content() == Step(old(Content()), Statement.Reschedule(id, owner, attempts, availableAt, failure))
      ensures ok <==> exists n :: n in old(live) && old(live)[n].message.id == id && old(live)[n].leaseOwner == Some(owner)
      ensures !ok ==> Content() == old(Content())
    {
      AtMostOneLeased(live, id, owner);
      LeasedByIs(live, id, owner);
      var updated := LeasedBy(live, id, owner);
      live := Rewrite(live, updated, (r: Row) => Unleased(r.(attempts := attempts, availableAt := availableAt,
      lastError := Some(failure.error), history := r.history + [failure])));
      ok := |updated| == 1;
    }

    method BuryMessage(id: string, owner: string, attempts: int, failure: Failure, reason: string, failedAt: int)
      returns (ok: bool)
      requires Valid()
      modifies this
      ensures Valid()
      ensures Content() == Step(old(Content()), Bury(id, owner, attempts, failure, reason, failedAt))
      ensures ok <==> exists n :: n in old(live) && old(live)[n].message.id == id && old(live)[n].leaseOwner == Some(owner)
      ensures !ok ==> Content() == old(Content())
      ensures ok ==> id in dead && dead[id].number in old(live) && dead[id].number !in live &&
                     dead[id].message == old(live)[dead[id].number].message
    {
      LeasedByIs(live, id, owner);
      var deleted := LeasedBy(live, id, owner);
      if deleted == {} {
        return false;
      }
      var n := Least(deleted);
      var row := live[n];
      live := live - deleted;
      dead := dead[id := Buried(n, row, attempts, failure, reason, failedAt)];
      return true;
    }

    method Release(ids: set<string>, owner: string) returns (count: nat)
      requires Valid()
      modifies this
      ensures Valid()
      ensures Content() == Step(old(Content()), Statement.Release(ids, owner))
      ensures forall n :: n in live && live[n].message.id in ids ==> live[n].leaseOwner != Some(owner)
      ensures dead == old(dead) && live.Keys == old(live).Keys
      ensures forall n :: n in live ==>
                (live[n] == old(live)[n] <==> !(old(live)[n].leaseOwner == Some(owner) && old(live)[n].message.id in ids)) &&
                live[n].(leaseOwner := None, leaseUntil := None) == old(live)[n].(leaseOwner := None, leaseUntil := None)
      ensures count == |set n | n in live && live[n] != old(live)[n]|
    {
      var released := set n | n in live && live[n].leaseOwner == Some(owner) && live[n].message.id in ids;
      live := Rewrite(live, released, Unleased);
      count := |released|;
      assert released == set n | n in live && live[n] != old(live)[n];
    }

    method RequeueDeadLetters(filter: Filter, now: int) returns (r: Result<nat, StoreError>)
      requires Valid()
      modifies this
      ensures Valid()
      ensures Content() == Step(old(Content()), Requeue(filter, now))
      ensures r == Err(EmptyFilterRefused) <==> Refused(filter)
      ensures r.Err? ==> Content() == old(Content())
      ensures r.Ok? ==> r.value == |Selected(old(dead), filter)| && dead == old(dead) - Selected(old(dead), filter)
    {
      if Refused(filter) {
        return Err(EmptyFilterRefused);
      }
      StepKeepsUniqueIds(Content(), Requeue(filter, now));
      var rows := Selected(dead, filter);
      if rows == {} {
        return Ok(0);
      }
      if !RequeueAccepted(Content(), rows) {
        return Err(UniqueViolation);
      }
      live, dead := live + RevivedRows(dead, rows, now), dead - rows;
      return Ok(|rows|);
    }

    method PurgeDeadLetters(filter: Filter) returns (r: Result<nat, StoreError>)
      requires Valid()
      modifies this`dead
      ensures Valid()
      ensures Content() == Step(old(Content()), Purge(filter))
      ensures r == Err(EmptyFilterRefused) <==> Refused(filter)
      ensures r.Err? ==> dead == old(dead)
      ensures r.Ok? ==> forall i :: i in old(dead) ==> (i in dead <==> !Matches(filter, old(dead)[i]))
      ensures forall i :: i in dead ==> i in old(dead) && dead[i] == old(dead)[i]
      ensures r.Ok? ==> r.value == |old(dead).Keys| - |dead.Keys|
    {
      if Refused(filter) {
        return Err(EmptyFilterRefused);
      }
      var purged := Selected(dead, filter);
      FewerKeys(dead, purged);
      dead := dead - purged;
      return Ok(|purged|);
    }

    /** The statements other connections manage to run while a claim holds `locked`. */
    method Others(gap: seq<Statement>, locked: set<int>)
      modifies this
      ensures Content() == RunBeside(old(Content()), gap, locked)
    {
      for i := 0 to |gap|
        invariant RunBeside(Content(), gap[i..], locked) == RunBeside(old(Content()), gap, locked)
      {
        var next := StepBeside(Content(), gap[i], locked);
        live, dead := next.live, next.dead;
        assert gap[i..][1..] == gap[i + 1..];
      }
      assert gap[|gap|..] == [];
    }

    method Claim(owner: string, now: int, leaseMs: int, limit: nat, busy: set<int>,
                 gap1: seq<Statement>, gap2: seq<Statement>, gap3: seq<Statement>) returns (batch: seq<Delivery>)
      modifies this
      ensures var o := OutboxClaim.Claim(old(Content()), owner, now, leaseMs, limit, busy, gap1, gap2, gap3);
              && Content() == o.final
              && (forall n :: n in o.batch ==> n in o.lastLook)
              && batch == Deliveries(o.batch, o.lastLook)
              && |batch| == |o.batch|
              && forall i :: 0 <= i < |batch| ==>
                   var row := o.lastLook[o.batch[i]];
                   batch[i] == Delivery(row.message, row.availableAt, row.attempts, row.lastError)
    {
      ghost var o := OutboxClaim.Claim(Content(), owner, now, leaseMs, limit, busy, gap1, gap2, gap3);
      var due := FirstOf(ClaimableRows(live, now, busy), limit);
      if |due| == 0 {
        return [];
      }
      var picked := Elements(due);
      ghost var look := LastLook(Content(), picked, owner, now + leaseMs, gap1, gap2);
      Others(gap1, picked);
      live := LeaseRows(live, picked, owner, now + leaseMs);
      Others(gap2, picked);
      assert Content() == look;

      var giveBack: seq<int>;
      batch, giveBack := Split(due, owner);
      DeliveriesAre(Sift(due, live, owner, {}).0, live);
      Others(gap3, picked);
      if |giveBack| > 0 {
        live := Rewrite(live, Elements(giveBack), Unleased);
      }
    }

    /** The loop over the rows of the last look. */
    method Split(rows: seq<int>, owner: string) returns (batch: seq<Delivery>, giveBack: seq<int>)
      requires forall n :: n in rows ==> n in live
      ensures giveBack == Sift(rows, live, owner, {}).1
      ensures batch == Deliveries(Sift(rows, live, owner, {}).0, live)
    {
      var blocked: set<string> := {};
      batch, giveBack := [], [];
      ghost var numbers: seq<int> := [];
      assert rows[0..] == rows;
      for i := 0 to |rows|
        invariant forall n :: n in numbers ==> n in live
        invariant Sifting(rows, i, live, owner, blocked, numbers, giveBack)
        invariant batch == Deliveries(numbers, live)
      {
        var n := rows[i];
        SiftsOneMore(rows, i, live, owner, blocked, numbers, giveBack);
        if GivenBack(live, n, owner, blocked) {
          blocked := blocked + {live[n].message.key.value};
          giveBack := giveBack + [n];
        } else {
          DeliveriesAppend(numbers, n, live);
          batch := batch + [ToDelivery(live[n])];
          numbers := numbers + [n];
        }
      }
      ghost var rest := Sift(rows[|rows|..], live, owner, blocked);
      assert rest.0 == [] && rest.1 == [] && numbers + [] == numbers && giveBack + [] == giveBack;
    }
  }
}

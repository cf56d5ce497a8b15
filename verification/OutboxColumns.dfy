/** What the statements do, column by column. */
module OutboxColumns {
  import opened Common
  import opened Outbox

  /** Row `n` is the message `id` and leased to `owner`. */
  ghost predicate HeldBy(live: Table, n: int, id: string, owner: string) {
    n in live && live[n].message.id == id && live[n].leaseOwner == Some(owner)
  }

  ghost predicate SameRowsBut(live: Table, live': Table, n: int) {
    forall m :: m != n ==> (m in live' <==> m in live) && (m in live ==> live'[m] == live[m])
  }

  ghost predicate SameLettersBut(dead: map<string, DeadLetter>, dead': map<string, DeadLetter>, id: string) {
    forall i :: i != id ==> (i in dead' <==> i in dead) && (i in dead ==> dead'[i] == dead[i])
  }

  /** With unique ids, the statements of a lease's holder hit that one row. */
  lemma OneIsHit(live: Table, n: int, id: string, owner: string)
    requires UniqueIds(live) && HeldBy(live, n, id, owner)
    ensures LeasedBy(live, id, owner) == {n}
  {
    forall m
      ensures m in LeasedBy(live, id, owner) <==> m == n
    {
      assert m in LeasedBy(live, id, owner) ==> HeldBy(live, m, id, owner);
    }
  }

  lemma NoneIsHit(live: Table, id: string, owner: string)
    requires forall n :: !HeldBy(live, n, id, owner)
    ensures LeasedBy(live, id, owner) == {}
  {
    forall m
      ensures m !in LeasedBy(live, id, owner)
    {
      assert !HeldBy(live, m, id, owner);
    }
  }

  lemma PublishedIsGone(s: Store, n: int, id: string, owner: string)
    requires UniqueIds(s.live) && HeldBy(s.live, n, id, owner)
    ensures var t := Step(s, Publish(id, owner)); n !in t.live && SameRowsBut(s.live, t.live, n) && t.dead == s.dead
  {
    OneIsHit(s.live, n, id, owner);
  }

  lemma RescheduledIs(s: Store, n: int, id: string, owner: string, attempts: int, availableAt: int, failure: Failure)
    requires UniqueIds(s.live) && HeldBy(s.live, n, id, owner)
    ensures var t := Step(s, Reschedule(id, owner, attempts, availableAt, failure));
            && n in t.live && SameRowsBut(s.live, t.live, n) && t.dead == s.dead
            && t.live[n] == Row(s.live[n].message, availableAt, attempts, Some(failure.error), s.live[n].history + [failure],
                                None, None)
  {
    OneIsHit(s.live, n, id, owner);
  }

  lemma BuriedIs(s: Store, n: int, id: string, owner: string, attempts: int, failure: Failure, reason: string, failedAt: int)
    requires UniqueIds(s.live) && HeldBy(s.live, n, id, owner)
    ensures var t := Step(s, Bury(id, owner, attempts, failure, reason, failedAt));
            && n !in t.live && SameRowsBut(s.live, t.live, n) && id in t.dead && SameLettersBut(s.dead, t.dead, id)
            && t.dead[id] == DeadLetter(s.live[n].message, n, attempts, Some(failure.error), s.live[n].history + [failure],
                                        reason, failedAt)
  {
    OneIsHit(s.live, n, id, owner);
    assert Least({n}) in {n};
  }

  /** Whoever does not hold the lease changes nothing. */
  lemma OthersChangeNothing(s: Store, id: string, owner: string, attempts: int, at: int, failure: Failure, reason: string)
    requires forall n :: !HeldBy(s.live, n, id, owner)
    ensures Step(s, Publish(id, owner)) == s
    ensures Step(s, Reschedule(id, owner, attempts, at, failure)) == s
    ensures Step(s, Bury(id, owner, attempts, failure, reason, at)) == s
  {
    NoneIsHit(s.live, id, owner);
    assert s.live - {} == s.live;
    assert Rewrite(s.live, {}, (r: Row) => Unleased(r.(attempts := attempts, availableAt := at,
    lastError := Some(failure.error), history := r.history + [failure]))) == s.live;
  }

  /** Beside a claim, a statement of others that needs none of the locked rows takes effect at once, and any other waits. */
  lemma BesideAClaim(s: Store, st: Statement, locked: set<int>)
    requires !st.Lease? && !st.Unlease?
    ensures (forall n :: n in locked && n in s.live ==> n in Step(s, st).live && Step(s, st).live[n] == s.live[n]) ||
            StepBeside(s, st, locked) == s
    ensures (st.Add? || st.Requeue? || st.Purge?) ==> StepBeside(s, st, locked) == Step(s, st)
    ensures (st.Publish? || st.Reschedule? || st.Bury?) && (forall n :: n in locked ==> !HeldBy(s.live, n, st.id, st.owner)) ==>
              StepBeside(s, st, locked) == Step(s, st)
  {
    StepIsMild(s, st);
    if (st.Publish? || st.Reschedule? || st.Bury?) && forall n :: n in locked ==> !HeldBy(s.live, n, st.id, st.owner) {
      forall n | n in locked
        ensures n !in Touches(s, st)
      {
        assert n in LeasedBy(s.live, st.id, st.owner) ==> HeldBy(s.live, n, st.id, st.owner);
      }
    }
  }

  // ---------------------------------------------------------------- producers

  /** The numbers and the ids are all new. */
  ghost predicate AllNew(live: Table, rows: map<int, Incoming>) {
    && (forall n :: n in rows ==> n !in live)
    && (forall a, b :: a in rows && b in live ==> rows[a].message.id != live[b].message.id)
    && (forall a, b :: a in rows && b in rows && a != b ==> rows[a].message.id != rows[b].message.id)
  }

  /** An insert goes through exactly when they are; then the rows are there as given, due as asked and never tried. */
  lemma AddedRowsAreThere(s: Store, rows: map<int, Incoming>)
    ensures var t := Step(s, Add(rows));
            && t.dead == s.dead && (!AllNew(s.live, rows) ==> t == s)
            && (AllNew(s.live, rows) ==>
                  && t.live.Keys == s.live.Keys + rows.Keys
                  && (forall n :: n in s.live ==> t.live[n] == s.live[n])
                  && (forall n :: n in rows ==> t.live[n] == Row(rows[n].message, rows[n].availableAt, 0, None, [], None, None)))
  {
    if AllNew(s.live, rows) {
      forall n | n in rows.Keys
        ensures n !in s.live.Keys
      {
        assert n in rows;
      }
    } else {
      assert !InsertAccepted(s.live, rows);
    }
  }

  // ---------------------------------------------------------------- dead letters

  /** Each given field must fit; letters fail before the given time. */
  ghost predicate Fits(f: Filter, d: DeadLetter) {
    && (f.ids == None || d.message.id in f.ids.value)
    && (f.topic == None || f.topic == Some(d.message.topic))
    && (f.key == None || f.key == d.message.key)
    && (f.failedBefore == None || d.failedAt < f.failedBefore.value)
  }

  /** Only a filter with a field, or one that asks for all, selects anything. */
  lemma SelectedAre(dead: map<string, DeadLetter>, f: Filter, i: string)
    ensures i in Selected(dead, f) <==>
            && i in dead && Fits(f, dead[i])
            && (f.all || f.ids.Some? || f.topic.Some? || f.key.Some? || f.failedBefore.Some?)
  {
  }

  /** A requeue takes all it selects or nothing; what it takes is back under its number, due at once and untried. */
  lemma RequeuedIs(s: Store, f: Filter, now: int)
    ensures var t := Step(s, Requeue(f, now));
            || t == s
            || (&& t.dead == s.dead - Selected(s.dead, f)
                && (forall n :: n in s.live ==> n in t.live && t.live[n] == s.live[n])
                && (forall n :: n in t.live && n !in s.live ==> exists i :: i in Selected(s.dead, f) && s.dead[i].number == n)
                && (forall i :: i in Selected(s.dead, f) ==>
                      var d := s.dead[i];
                      d.number in t.live && t.live[d.number] == Row(d.message, now, 0, d.lastError, d.history, None, None)))
  {
  }
}

/** Which rows a claim may pick, said of the table's columns, and what a backoff is worth. */
module OutboxDue {
  import opened Common
  import opened Outbox
  import opened OutboxClaim
  import opened OutboxClaimTheorems
  import opened OutboxExclusion

  /** Due and not leased, and so is every older row of the key. */
  ghost predicate Ready(live: Table, n: int, now: int) {
    && n in live
    && live[n].availableAt <= now
    && (live[n].leaseUntil.None? || live[n].leaseUntil.value <= now)
    && (forall p :: p in live && p < n && live[n].message.key.Some? && live[p].message.key == live[n].message.key ==>
          live[p].availableAt <= now && (live[p].leaseUntil.None? || live[p].leaseUntil.value <= now))
  }

  lemma ReadyIsClaimable(live: Table, n: int, now: int, busy: set<int>)
    ensures n in ClaimableRows(live, now, busy) <==> Ready(live, n, now) && n !in busy
  {
    if n in live && Claimable(live, n, now) {
      forall p | p in live && p < n && live[n].message.key.Some? && live[p].message.key == live[n].message.key
        ensures live[p].availableAt <= now && (live[p].leaseUntil.None? || live[p].leaseUntil.value <= now)
      {
        assert Before(live, p, n);
      }
    }
  }

  /** The picked rows are, in order of their numbers, the first `limit` that are ready and not locked by others. */
  lemma PickedAreReady(s: Store, owner: string, now: int, leaseMs: int, limit: nat, busy: set<int>,
                       gap1: seq<Statement>, gap2: seq<Statement>, gap3: seq<Statement>, o: Outcome)
    requires o == Claim(s, owner, now, leaseMs, limit, busy, gap1, gap2, gap3)
    ensures Ascending(o.picked) && |o.picked| <= limit
    ensures forall n :: n in o.picked ==> Ready(s.live, n, now) && n !in busy
    ensures forall n :: Ready(s.live, n, now) && n !in busy && n !in o.picked ==>
              |o.picked| == limit && forall m :: m in o.picked ==> m < n
  {
    var rows := ClaimableRows(s.live, now, busy);
    assert o.picked == FirstOf(rows, limit);
    forall n
      ensures n in rows <==> Ready(s.live, n, now) && n !in busy
    {
      ReadyIsClaimable(s.live, n, now, busy);
    }
    forall n | n in rows && n !in o.picked
      ensures |o.picked| == limit && forall m :: m in o.picked ==> m < n
    {
      LeftOverIsLater(rows, limit, n);
    }
  }

  lemma LeftOverIsLater(rows: set<int>, limit: nat, n: int)
    requires n in rows && n !in FirstOf(rows, limit)
    ensures |FirstOf(rows, limit)| == limit && forall m :: m in FirstOf(rows, limit) ==> m < n
  {
    if |rows| <= limit {
      AllOf(rows, limit);
      assert false;
    }
  }

  lemma DeliveredArePicked(s: Store, act: Act, n: int)
    requires act.ClaimFor? && n in ResultOf(s, act).batch
    ensures n in ResultOf(s, act).picked
  {
    DeliveredIsLeased(s, act, n, ResultOf(s, act));
    ClaimLeasesExactlyTheBatch(s, act.owner, act.now, act.leaseMs, act.limit, act.busy, act.gap1, act.gap2, act.gap3,
                               ResultOf(s, act));
  }

  // ---------------------------------------------------------------- a rescheduled message waits

  /** The row waits: nobody has leased it, and it is not due before `until`. */
  ghost predicate Waiting(s: Store, n: int, until: int) {
    n in s.live && s.live[n].leaseOwner.None? && until <= s.live[n].availableAt
  }

  /** Any relay's write, or any relay's claim that begins before `until`. */
  ghost predicate Early(act: Act, until: int) {
    match act
    case Write(st) => !st.Lease? && !st.Unlease?
    case ClaimFor(_, now, _, _, _, gap1, gap2, gap3) => now < until
  }

  lemma {:induction false} BesideLeavesWaiting(s: Store, sts: seq<Statement>, locked: set<int>, n: int)
    requires n in s.live && s.live[n].leaseOwner.None?
    ensures n in RunBeside(s, sts, locked).live && RunBeside(s, sts, locked).live[n] == s.live[n]
    decreases |sts|
  {
    if sts != [] {
      StepLeavesWaiting(s, sts[0], n);
      BesideLeavesWaiting(StepBeside(s, sts[0], locked), sts[1..], locked, n);
    }
  }

  lemma StepLeavesWaiting(s: Store, st: Statement, n: int)
    requires n in s.live && s.live[n].leaseOwner.None?
    ensures !st.Lease? && !st.Unlease? ==> n in Step(s, st).live && Step(s, st).live[n] == s.live[n]
  {
    if !st.Lease? && !st.Unlease? {
      StepIsMild(s, st);
      assert n !in Touches(s, st);
    }
  }

  lemma NotPickedWhileWaiting(s: Store, act: Act, n: int, until: int, o: Outcome)
    requires Waiting(s, n, until) && act.ClaimFor? && act.now < until && o == ResultOf(s, act)
    ensures forall m :: m in o.picked ==> m != n && m in s.live && !Before(s.live, n, m)
  {
    PickedAreReady(s, act.owner, act.now, act.leaseMs, act.limit, act.busy, act.gap1, act.gap2, act.gap3, o);
    forall m | m in o.picked
      ensures m != n && m in s.live && !Before(s.live, n, m)
    {
      assert Ready(s.live, m, act.now);
    }
  }

  lemma ClaimRowsLeavesWaiting(s: Store, due: seq<int>, owner: string, now: int, leaseMs: int, gap1: seq<Statement>,
                               gap2: seq<Statement>, gap3: seq<Statement>, n: int)
    requires n in s.live && s.live[n].leaseOwner.None? && n !in due && forall m :: m in due ==> m in s.live
    ensures var t := ClaimRows(s, due, owner, now, leaseMs, gap1, gap2, gap3).final; n in t.live && t.live[n] == s.live[n]
  {
    var picked := Elements(due);
    var s1 := RunBeside(s, gap1, picked);
    BesideLeavesWaiting(s, gap1, picked, n);
    RunBesideIsMild(s, gap1, picked);
    LeaseKeeps(s1.live, picked, owner, now + leaseMs, n);
    BesideLeavesWaiting(s1.(live := LeaseRows(s1.live, picked, owner, now + leaseMs)), gap2, picked, n);
    var look := LastLook(s, picked, owner, now + leaseMs, gap1, gap2);
    BesideLeavesWaiting(look, gap3, picked, n);
    ConcludeKeeps(due, look.live, owner, BeforeGivingBack(look, picked, gap3), n);
  }

  lemma ActLeavesWaiting(s: Store, act: Act, n: int, until: int)
    requires Waiting(s, n, until) && Early(act, until)
    ensures n in After(s, [act]).live && After(s, [act]).live[n] == s.live[n]
  {
    if act.Write? {
      StepLeavesWaiting(s, act.st, n);
    } else {
      NotPickedWhileWaiting(s, act, n, until, ResultOf(s, act));
      var due := FirstOf(ClaimableRows(s.live, act.now, act.busy), act.limit);
      if due != [] {
        ClaimRowsLeavesWaiting(s, due, act.owner, act.now, act.leaseMs, act.gap1, act.gap2, act.gap3, n);
      }
    }
  }

  /** Through any run of writes and of claims that begin before `until`, by anybody, the row stays as it is. */
  lemma {:induction false} WaitingHolds(s: Store, acts: seq<Act>, n: int, until: int)
    requires Waiting(s, n, until) && forall i :: 0 <= i < |acts| ==> Early(acts[i], until)
    ensures n in After(s, acts).live && After(s, acts).live[n] == s.live[n]
    decreases |acts|
  {
    if acts != [] {
      ActLeavesWaiting(s, acts[0], n, until);
      assert After(s, [acts[0]]) == if acts[0].Write? then Step(s, acts[0].st) else ResultOf(s, acts[0]).final;
      WaitingHolds(After(s, [acts[0]]), acts[1..], n, until);
    }
  }

  /** The holder of the lease puts its message off. */
  lemma RescheduledWaits(s: Store, n: int, owner: string, attempts: int, availableAt: int, failure: Failure)
    requires n in s.live && s.live[n].leaseOwner == Some(owner)
    ensures Waiting(Step(s, Reschedule(s.live[n].message.id, owner, attempts, availableAt, failure)), n, availableAt)
    ensures Step(s, Reschedule(s.live[n].message.id, owner, attempts, availableAt, failure)).live[n].message ==
            s.live[n].message
  {
  }

  /**
   A rescheduled message and its younger siblings are not delivered before its `availableAt`: not by any claim that
   begins before that, whatever others claim and write in the meantime.
   */
  lemma BackoffIsKept(s: Store, n: int, owner: string, attempts: int, availableAt: int, failure: Failure,
                      acts: seq<Act>, next: Act)
    requires n in s.live && s.live[n].leaseOwner == Some(owner)
    requires (forall i :: 0 <= i < |acts| ==> Early(acts[i], availableAt)) && next.ClaimFor? && next.now < availableAt
    ensures var t := After(Step(s, Reschedule(s.live[n].message.id, owner, attempts, availableAt, failure)), acts);
            && n in t.live && t.live[n].message == s.live[n].message
            && forall m :: m in ResultOf(t, next).batch ==>
                 && m in t.live && m != n
                 && !(n < m && t.live[m].message.key.Some? && t.live[n].message.key == t.live[m].message.key)
  {
    RescheduledWaits(s, n, owner, attempts, availableAt, failure);
    var put := Step(s, Reschedule(s.live[n].message.id, owner, attempts, availableAt, failure));
    WaitingHolds(put, acts, n, availableAt);
    var t := After(put, acts);
    NotPickedWhileWaiting(t, next, n, availableAt, ResultOf(t, next));
    forall m | m in ResultOf(t, next).batch
      ensures m in ResultOf(t, next).picked
    {
      DeliveredArePicked(t, next, m);
    }
  }
}

/** What every call answers, said of the calls before it alone: the last one that went through decides. */
module IdempotencyHistory {
  import opened Common
  import opened Idempotency

  /** The call went through: it acquired, completed, renewed or released. */
  ghost predicate WentThrough(calls: seq<Call>, c: nat)
    requires c < |calls|
  {
    Answer(calls, c) == Acquired || Answer(calls, c) == Done
  }

  /** Nothing between `c` and `j` went through. */
  ghost predicate Quiet(calls: seq<Call>, c: int, j: nat)
    requires -1 <= c < j <= |calls|
  {
    forall k: nat :: c < k < j ==> !WentThrough(calls, k)
  }

  function TimeOf(op: Op): nat {
    match op
    case Acquire(_, _, lockTtl) => lockTtl
    case Complete(_, _, ttl) => ttl
    case Release(_) => 0
    case Extend(_, lockTtl) => lockTtl
  }

  /** The last millisecond at which what call `c` wrote is there. */
  function Until(call: Call): int {
    call.now + TimeOf(call.op)
  }

  /** Call `i` acquired the lock that call `c` acquires, renews or completes. */
  ghost predicate IsAttempt(calls: seq<Call>, i: nat, c: nat) {
    && i <= c < |calls| && calls[i].op.Acquire? && Answer(calls, i) == Acquired
    && calls[i].op.owner == calls[c].op.owner
  }

  ghost function Written(calls: seq<Call>, i: nat, c: nat): Entry
    requires i <= c < |calls| && calls[i].op.Acquire?
  {
    var fields := if calls[c].op.Complete?
                  then map[STATE := "completed", FP := calls[i].op.fingerprint, RESP := calls[c].op.response]
                  else map[STATE := "in-flight", FP := calls[i].op.fingerprint, OWNER := calls[c].op.owner];
    Entry(fields, Until(calls[c]))
  }

  /** What a call that went through leaves. */
  lemma WrittenBy(calls: seq<Call>, c: nat) returns (i: nat)
    requires c < |calls| && WentThrough(calls, c) && !calls[c].op.Release?
    ensures IsAttempt(calls, i, c) && After(calls[..c + 1]) == Some(Written(calls, i, c))
  {
    var before := calls[..c];
    assert calls[..c + 1][..c] == before;
    if calls[c].op.Acquire? {
      return c;
    }
    LocksHaveAttempts(before);
    i :| 0 <= i < |before| && LockOf(before, i, After(before).value);
    assert before[..i] == calls[..i];
    if calls[c].op.Complete? {
      CompletionMakesAReplay(After(before), calls[c].now, calls[c].op);
    }
  }

  lemma ReleasedIsGone(calls: seq<Call>, c: nat)
    requires c < |calls| && WentThrough(calls, c) && calls[c].op.Release?
    ensures After(calls[..c + 1]) == None
  {
    assert calls[..c + 1][..c] == calls[..c];
  }

  lemma RefusedChangesNothing(s: Option<Entry>, now: int, op: Op)
    requires ReplyTo(s, now, op) != Acquired && ReplyTo(s, now, op) != Done
    ensures AfterOp(s, now, op) == Live(s, now)
  {
  }

  /** What was written stays until its time is up, while nothing goes through. */
  lemma {:induction false} StaysUntil(calls: seq<Call>, c: nat, j: nat, e: Option<Entry>)
    requires c < j <= |calls| && ClockRuns(calls) && Quiet(calls, c, j) && After(calls[..c + 1]) == e
    ensures After(calls[..j]) == e || (After(calls[..j]) == None && e.value.when < calls[j - 1].now)
    decreases j
  {
    if c + 1 < j {
      StaysUntil(calls, c, j - 1, e);
      assert calls[..j][..j - 1] == calls[..j - 1];
      assert !WentThrough(calls, j - 1);
      RefusedChangesNothing(After(calls[..j - 1]), calls[j - 1].now, calls[j - 1].op);
    }
  }

  lemma {:induction false} NothingYet(calls: seq<Call>, j: nat)
    requires j <= |calls| && forall k: nat :: k < j ==> !WentThrough(calls, k)
    ensures After(calls[..j]) == None
  {
    if 0 < j {
      NothingYet(calls, j - 1);
      assert calls[..j][..j - 1] == calls[..j - 1];
      assert !WentThrough(calls, j - 1);
      RefusedChangesNothing(After(calls[..j - 1]), calls[j - 1].now, calls[j - 1].op);
    }
  }

  /** At a key that is free, an acquire acquires and everything else is told that it holds no lock. */
  lemma FirstComeFirstServed(calls: seq<Call>, j: nat)
    requires j < |calls| && forall k: nat :: k < j ==> !WentThrough(calls, k)
    ensures Answer(calls, j) == if calls[j].op.Acquire? then Acquired else LockLost
  {
    NothingYet(calls, j);
  }

  /** The same once the last call that went through was a release, or its time is up. */
  lemma FreeAgain(calls: seq<Call>, c: nat, j: nat)
    requires c < j < |calls| && ClockRuns(calls) && WentThrough(calls, c) && Quiet(calls, c, j)
    requires calls[c].op.Release? || Until(calls[c]) < calls[j].now
    ensures Answer(calls, j) == if calls[j].op.Acquire? then Acquired else LockLost
  {
    if calls[c].op.Release? {
      ReleasedIsGone(calls, c);
      StaysUntil(calls, c, j, None);
    } else {
      var i := WrittenBy(calls, c);
      StaysUntil(calls, c, j, Some(Written(calls, i, c)));
    }
  }

  /**
   From an acquire or a renewal on, and until its time is up, every acquire is told that the request is in flight, with
   the fingerprint of the attempt that holds the lock; only that attempt's calls go through.
   */
  lemma LockedUntil(calls: seq<Call>, c: nat, j: nat) returns (i: nat)
    requires c < j < |calls| && ClockRuns(calls) && WentThrough(calls, c) && Quiet(calls, c, j)
    requires (calls[c].op.Acquire? || calls[c].op.Extend?) && calls[j].now <= Until(calls[c])
    ensures IsAttempt(calls, i, c)
    ensures Answer(calls, j) == if calls[j].op.Acquire? then InFlight(calls[i].op.fingerprint)
                                else if calls[j].op.owner == calls[c].op.owner then Done else LockLost
  {
    i := WrittenBy(calls, c);
    StaysUntil(calls, c, j, Some(Written(calls, i, c)));
  }

  /** From a completion on, and until its time is up, every acquire is given its response and nothing goes through. */
  lemma ReplayedUntil(calls: seq<Call>, c: nat, j: nat) returns (i: nat)
    requires c < j < |calls| && ClockRuns(calls) && ResponsesAreText(calls) && WentThrough(calls, c) && Quiet(calls, c, j)
    requires calls[c].op.Complete? && calls[j].now <= Until(calls[c])
    ensures IsAttempt(calls, i, c)
    ensures Answer(calls, j) == if calls[j].op.Acquire? then Completed(calls[i].op.fingerprint, calls[c].op.response)
                                else LockLost
  {
    i := WrittenBy(calls, c);
    StaysUntil(calls, c, j, Some(Written(calls, i, c)));
  }
}

/**
 The Redis idempotency record of one key: a hash with a time to live, changed only by four scripts that run
 atomically. Times are whole milliseconds of Redis's own clock, which does not go back.
 */
module Idempotency {
  import opened Common

  /** The hash's fields and the last millisecond it lives. */
  datatype Entry = Entry(fields: map<string, string>, when: int)

  datatype Op =
    | Acquire(owner: string, fingerprint: string, lockTtl: nat)
    | Complete(owner: string, response: string, ttl: nat)
    | Release(owner: string)
    | Extend(owner: string, lockTtl: nat)

  datatype Reply =
    | Acquired
    | InFlight(fingerprint: string)
    | Completed(fingerprint: string, response: string)
    | Unreadable
    | Done
    | LockLost

  const STATE := "state"
  const FP := "fp"
  const OWNER := "owner"
  const RESP := "resp"

  /** What Redis finds at the key: an entry past its time is no entry. */
  function Live(s: Option<Entry>, now: int): Option<Entry> {
    if s.Some? && now <= s.value.when then s else None
  }

  function Field(s: Option<Entry>, name: string): Option<string> {
    if s.Some? && name in s.value.fields then Some(s.value.fields[name]) else None
  }

  /** The attempt that holds the lock at this moment. */
  function Holder(s: Option<Entry>, now: int): Option<string> {
    Field(Live(s, now), OWNER)
  }

  // ---------------------------------------------------------------- the scripts

  function AfterOp(s: Option<Entry>, now: int, op: Op): Option<Entry> {
    var live := Live(s, now);
    match op
    case Acquire(owner, fingerprint, lockTtl) =>
      if live.Some? then live
      else Some(Entry(map[STATE := "in-flight", FP := fingerprint, OWNER := owner], now + lockTtl))
    case Complete(owner, response, ttl) =>
      if Holder(s, now) != Some(owner) then live
      else Some(Entry(live.value.fields[STATE := "completed"][RESP := response] - {OWNER}, now + ttl))
    case Release(owner) => if Holder(s, now) == Some(owner) then None else live
    case Extend(owner, lockTtl) =>
      if Holder(s, now) != Some(owner) then live else Some(live.value.(when := now + lockTtl))
  }

  function ReplyTo(s: Option<Entry>, now: int, op: Op): Reply {
    match op
    case Acquire(_, _, _) =>
      var live := Live(s, now);
      if live.None? then Acquired
      else
        var fingerprint := Field(live, FP);
        var fp := if fingerprint.Some? then fingerprint.value else "";
        if Field(live, STATE) != Some("completed") then InFlight(fp)
        else if Field(live, RESP).None? || Field(live, RESP).value == "" then Unreadable
        else Completed(fp, Field(live, RESP).value)
    case _ => if Holder(s, now) == Some(op.owner) then Done else LockLost
  }

  // ---------------------------------------------------------------- the class

  /** Durations are rounded up to whole milliseconds; anything below one is refused before a script runs. */
  function ToWholeMs(ms: real): (r: Option<nat>)
    ensures r.Some? <==> ms > 0.0
    ensures r.Some? ==> ms <= r.value as real < ms + 1.0
  {
    if Ceil(ms) < 1 then None else Some(Ceil(ms))
  }

  class RedisIdempotencyStore {
    var entry: Option<Entry>

    /** A key whose time is up is gone before any command sees it. */
    method Exists(now: int) returns (exists': bool)
      modifies this
      ensures entry == Live(old(entry), now) && exists' == entry.Some?
    {
      if entry.Some? && entry.value.when < now {
        entry := None;
      }
      exists' := entry.Some?;
    }

    method HashSet(name: string, value: string)
      requires entry.Some?
      modifies this
      ensures entry == Some(old(entry).value.(fields := old(entry).value.fields[name := value]))
    {
      entry := Some(entry.value.(fields := entry.value.fields[name := value]));
    }

    method PExpire(now: int, ttl: nat)
      requires entry.Some?
      modifies this
      ensures entry == Some(old(entry).value.(when := now + ttl))
    {
      entry := Some(entry.value.(when := now + ttl));
    }

    method Acquire(owner: string, fingerprint: string, lockTtl: real, now: int) returns (reply: Option<Reply>)
      modifies this
      ensures match ToWholeMs(lockTtl)
              case None => reply.None? && entry == old(entry)
              case Some(ttl) =>
                var op := Op.Acquire(owner, fingerprint, ttl);
                reply == Some(ReplyTo(old(entry), now, op)) && entry == AfterOp(old(entry), now, op)
    {
      var ttl := ToWholeMs(lockTtl);
      if ttl.None? {
        return None;
      }
      var found := Exists(now);
      if !found {
        entry := Some(Entry(map[STATE := "in-flight", FP := fingerprint, OWNER := owner], now));
        PExpire(now, ttl.value);
        return Some(Acquired);
      }
      var state, fp, resp := Field(entry, STATE), Field(entry, FP), Field(entry, RESP);
      var stored := if fp.Some? then fp.value else "";
      if state == Some("completed") {
        if resp.None? || resp.value == "" {
          return Some(Unreadable);
        }
        return Some(Completed(stored, resp.value));
      }
      return Some(InFlight(stored));
    }

    method Complete(owner: string, response: string, ttl: real, now: int) returns (reply: Option<Reply>)
      modifies this
      ensures match ToWholeMs(ttl)
              case None => reply.None? && entry == old(entry)
              case Some(whole) =>
                var op := Op.Complete(owner, response, whole);
                reply == Some(ReplyTo(old(entry), now, op)) && entry == AfterOp(old(entry), now, op)
    {
      var whole := ToWholeMs(ttl);
      if whole.None? {
        return None;
      }
      var found := Exists(now);
      if Field(entry, OWNER) != Some(owner) {
        return Some(LockLost);
      }
      HashSet(STATE, "completed");
      HashSet(RESP, response);
      entry := Some(entry.value.(fields := entry.value.fields - {OWNER}));
      PExpire(now, whole.value);
      return Some(Done);
    }

    method Release(owner: string, now: int) returns (released: bool)
      modifies this
      ensures released == (ReplyTo(old(entry), now, Op.Release(owner)) == Done)
      ensures entry == AfterOp(old(entry), now, Op.Release(owner))
    {
      var found := Exists(now);
      released := Field(entry, OWNER) == Some(owner);
      if released {
        entry := None;
      }
    }

    method Extend(owner: string, lockTtl: real, now: int) returns (reply: Option<Reply>)
      modifies this
      ensures match ToWholeMs(lockTtl)
              case None => reply.None? && entry == old(entry)
              case Some(ttl) =>
                var op := Op.Extend(owner, ttl);
                reply == Some(ReplyTo(old(entry), now, op)) && entry == AfterOp(old(entry), now, op)
    {
      var ttl := ToWholeMs(lockTtl);
      if ttl.None? {
        return None;
      }
      var found := Exists(now);
      if Field(entry, OWNER) != Some(owner) {
        return Some(LockLost);
      }
      PExpire(now, ttl.value);
      return Some(Done);
    }
  }

  // ---------------------------------------------------------------- runs

  datatype Call = Call(now: int, op: Op)

  /** The entry after a run of calls that starts with no entry. */
  function After(calls: seq<Call>): Option<Entry> {
    if |calls| == 0 then None
    else AfterOp(After(calls[..|calls| - 1]), calls[|calls| - 1].now, calls[|calls| - 1].op)
  }

  /** What the i-th call of a run answers. */
  function Answer(calls: seq<Call>, i: nat): Reply
    requires i < |calls|
  {
    ReplyTo(After(calls[..i]), calls[i].now, calls[i].op)
  }

  ghost predicate ClockRuns(calls: seq<Call>) {
    forall i, j :: 0 <= i < j < |calls| ==> calls[i].now <= calls[j].now
  }

  /** Each attempt has an owner id of its own. */
  ghost predicate OwnersAreDistinct(calls: seq<Call>) {
    forall i, j :: 0 <= i < j < |calls| && calls[i].op.Acquire? && calls[j].op.Acquire? ==>
                     calls[i].op.owner != calls[j].op.owner
  }

  /** Responses are JSON text, never empty. */
  ghost predicate ResponsesAreText(calls: seq<Call>) {
    forall i :: 0 <= i < |calls| && calls[i].op.Complete? ==> calls[i].op.response != ""
  }

  // ---------------------------------------------------------------- what every entry looks like

  /** A lock with an owner and no response, or a completed record with a response and no owner. */
  predicate WellFormed(e: Entry) {
    && FP in e.fields && STATE in e.fields
    && ((e.fields[STATE] == "in-flight" && OWNER in e.fields && RESP !in e.fields) ||
        (e.fields[STATE] == "completed" && OWNER !in e.fields && RESP in e.fields && e.fields[RESP] != ""))
  }

  lemma OpKeepsWellFormed(s: Option<Entry>, now: int, op: Op)
    requires s.Some? ==> WellFormed(s.value)
    requires op.Complete? ==> op.response != ""
    ensures AfterOp(s, now, op).Some? ==> WellFormed(AfterOp(s, now, op).value)
    ensures ReplyTo(s, now, op) != Unreadable
  {
  }

  /** No run leaves a completed record without a response, so no acquire fails on one. */
  lemma {:induction false} NeverUnreadable(calls: seq<Call>)
    requires ResponsesAreText(calls)
    ensures After(calls).Some? ==> WellFormed(After(calls).value)
    ensures forall i :: 0 <= i < |calls| ==> Answer(calls, i) != Unreadable
  {
    if |calls| > 0 {
      var before, last := calls[..|calls| - 1], calls[|calls| - 1];
      NeverUnreadable(before);
      OpKeepsWellFormed(After(before), last.now, last.op);
      forall i | 0 <= i < |calls|
        ensures Answer(calls, i) != Unreadable
      {
        if i < |calls| - 1 {
          assert calls[..i] == before[..i];
          assert Answer(before, i) != Unreadable;
        }
      }
    }
  }

  // ---------------------------------------------------------------- fencing and replay

  /** A record completed at `from`: from then on and while it lives, nothing changes it. */
  predicate IsReplay(s: Option<Entry>, fingerprint: string, response: string, when: int) {
    s == Some(Entry(map[STATE := "completed", FP := fingerprint, RESP := response], when))
  }

  lemma ReplayIsStable(s: Option<Entry>, now: int, op: Op, fingerprint: string, response: string, when: int)
    requires IsReplay(s, fingerprint, response, when) && now <= when && response != ""
    ensures AfterOp(s, now, op) == s
    ensures ReplyTo(s, now, op) == if op.Acquire? then Completed(fingerprint, response) else LockLost
  {
  }

  lemma CompletionMakesAReplay(s: Option<Entry>, now: int, op: Op)
    requires op.Complete? && ReplyTo(s, now, op) == Done && s.Some? && s.value.fields.Keys == {STATE, FP, OWNER}
    ensures IsReplay(AfterOp(s, now, op), s.value.fields[FP], op.response, now + op.ttl)
  {
    var after := s.value.fields[STATE := "completed"][RESP := op.response] - {OWNER};
    assert after == map[STATE := "completed", FP := s.value.fields[FP], RESP := op.response];
  }

  /** A lock of attempt `i` is what its acquire wrote. */
  ghost predicate LockOf(calls: seq<Call>, i: nat, e: Entry)
    requires i < |calls|
  {
    && calls[i].op.Acquire? && Answer(calls, i) == Acquired
    && e.fields == map[STATE := "in-flight", FP := calls[i].op.fingerprint, OWNER := calls[i].op.owner]
  }

  /** Every entry with an owner is the lock of an attempt that acquired it. */
  lemma {:induction false} LocksHaveAttempts(calls: seq<Call>)
    ensures Field(After(calls), OWNER).Some? ==>
              exists i :: 0 <= i < |calls| && LockOf(calls, i, After(calls).value)
  {
    if |calls| > 0 {
      var n := |calls| - 1;
      var before := calls[..n];
      LocksHaveAttempts(before);
      if Field(After(calls), OWNER).Some? {
        if calls[n].op.Acquire? && Live(After(before), calls[n].now).None? {
          assert LockOf(calls, n, After(calls).value);
        } else {
          var i :| 0 <= i < |before| && LockOf(before, i, After(before).value);
          assert calls[..i] == before[..i];
          assert LockOf(calls, i, After(calls).value);
        }
      }
    }
  }

  /** A completion is by an attempt that acquired, and leaves the record its acquire and its response make. */
  lemma CompletionHasAttempt(calls: seq<Call>, c: nat) returns (i: nat)
    requires c < |calls| && calls[c].op.Complete? && Answer(calls, c) == Done
    ensures i < c && calls[i].op.Acquire? && calls[i].op.owner == calls[c].op.owner && Answer(calls, i) == Acquired
    ensures IsReplay(After(calls[..c + 1]), calls[i].op.fingerprint, calls[c].op.response, calls[c].now + calls[c].op.ttl)
  {
    var before := calls[..c];
    LocksHaveAttempts(before);
    i :| 0 <= i < |before| && LockOf(before, i, After(before).value);
    assert before[..i] == calls[..i];
    assert calls[..c + 1][..c] == before;
    CompletionMakesAReplay(After(before), calls[c].now, calls[c].op);
  }

  lemma {:induction false} ReplayStays(calls: seq<Call>, from: nat, j: nat, fingerprint: string, response: string, when: int)
    requires from <= j <= |calls| && ClockRuns(calls) && response != ""
    requires IsReplay(After(calls[..from]), fingerprint, response, when)
    requires from < j ==> calls[j - 1].now <= when
    ensures IsReplay(After(calls[..j]), fingerprint, response, when)
    decreases j
  {
    if from < j {
      ReplayStays(calls, from, j - 1, fingerprint, response, when);
      assert calls[..j][..j - 1] == calls[..j - 1];
      ReplayIsStable(After(calls[..j - 1]), calls[j - 1].now, calls[j - 1].op, fingerprint, response, when);
    }
  }

  /**
   Once an attempt has completed, and for `ttl` after that, every acquire replays its response with the fingerprint
   of its own acquire, and no attempt, itself included, completes, renews or releases anything.
   */
  lemma CompletedIsReplayed(calls: seq<Call>, c: nat) returns (i: nat)
    requires ClockRuns(calls) && ResponsesAreText(calls)
    requires c < |calls| && calls[c].op.Complete? && Answer(calls, c) == Done
    ensures i < c && calls[i].op.Acquire? && calls[i].op.owner == calls[c].op.owner && Answer(calls, i) == Acquired
    ensures forall j :: c < j < |calls| && calls[j].now <= calls[c].now + calls[c].op.ttl ==>
                          Answer(calls, j) == if calls[j].op.Acquire?
                                              then Completed(calls[i].op.fingerprint, calls[c].op.response) else LockLost
  {
    i := CompletionHasAttempt(calls, c);
    var fingerprint, response, when := calls[i].op.fingerprint, calls[c].op.response, calls[c].now + calls[c].op.ttl;
    forall j | c < j < |calls| && calls[j].now <= when
      ensures Answer(calls, j) == if calls[j].op.Acquire? then Completed(fingerprint, response) else LockLost
    {
      ReplayStays(calls, c + 1, j, fingerprint, response, when);
      ReplayIsStable(After(calls[..j]), calls[j].now, calls[j].op, fingerprint, response, when);
    }
  }

  // ---------------------------------------------------------------- locks

  /** An attempt that has lost its lock, by expiry or by its own doing, never holds it again. */
  lemma {:induction false} LostForGood(calls: seq<Call>, i: nat, j: nat, k: nat)
    requires ClockRuns(calls) && OwnersAreDistinct(calls)
    requires i < j <= k < |calls| && calls[i].op.Acquire?
    requires Holder(After(calls[..j]), calls[j].now) != Some(calls[i].op.owner)
    ensures Holder(After(calls[..k]), calls[k].now) != Some(calls[i].op.owner)
    ensures !calls[k].op.Acquire? && calls[k].op.owner == calls[i].op.owner ==>
              Answer(calls, k) == LockLost && AfterOp(After(calls[..k]), calls[k].now, calls[k].op) == Live(After(calls[..k]), calls[k].now)
    decreases k
  {
    if j < k {
      LostForGood(calls, i, j, k - 1);
      assert calls[..k][..k - 1] == calls[..k - 1];
      var op := calls[k - 1].op;
      assert op.Acquire? ==> op.owner != calls[i].op.owner;
    }
  }
}

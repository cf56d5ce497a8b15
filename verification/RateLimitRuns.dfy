/** Runs of the script: any calls, over any mix of rules, on a clock that never goes back. */
module RateLimitRuns {
  import opened Common
  import opened RateLimit

  datatype Call = Call(consume: bool, id: string, us: int, rules: seq<Rule>)

  ghost predicate ValidCalls(calls: seq<Call>) {
    forall i :: 0 <= i < |calls| ==> ValidRules(calls[i].rules)
  }

  /** Time readings, none before `since`. */
  ghost predicate Monotone(calls: seq<Call>, since: int) {
    && (forall i :: 0 <= i < |calls| ==> since <= calls[i].us)
    && (forall i, j :: 0 <= i <= j < |calls| ==> calls[i].us <= calls[j].us)
  }

  /** The key is always limited by the same configuration. */
  ghost predicate AlwaysConfigured(calls: seq<Call>, key: string, c: Config) {
    forall i, j :: 0 <= i < |calls| && 0 <= j < |calls[i].rules| && calls[i].rules[j].key == key ==>
        calls[i].rules[j].config == c
  }

  ghost predicate Consumes(db: Redis, call: Call)
    requires ValidRules(call.rules)
  {
    call.consume && TypesFit(db, call.rules, call.us) && AllAllow(db, call.rules, call.us)
  }

  ghost predicate Mentions(call: Call, key: string) {
    exists j :: 0 <= j < |call.rules| && call.rules[j].key == key
  }

  ghost function Exec(db: Redis, call: Call): Redis
    requires ValidRules(call.rules)
  {
    if Consumes(db, call) then CommitAll(db, call.rules, call.us, call.id) else db
  }

  ghost function After(db: Redis, calls: seq<Call>): Redis
    requires ValidCalls(calls)
    decreases |calls|
  {
    if calls == [] then db else After(Exec(db, calls[0]), calls[1..])
  }

  ghost function Taken(db: Redis, call: Call, key: string): seq<int>
    requires ValidRules(call.rules)
  {
    if Consumes(db, call) && Mentions(call, key) then [call.us] else []
  }

  /** The times, in microseconds, of the calls that consumed from the key. */
  ghost function Accepted(db: Redis, calls: seq<Call>, key: string): seq<int>
    requires ValidCalls(calls)
    decreases |calls|
  {
    if calls == [] then []
    else
      Taken(db, calls[0], key) + Accepted(Exec(db, calls[0]), calls[1..], key)
  }

  /** A call changes a key only by consuming from it, and then only because its rule allowed it. */
  lemma CallAtKey(db: Redis, call: Call, key: string, c: Config)
    requires ValidRules(call.rules) && ValidConfig(c)
    requires AlwaysConfigured([call], key, c)
    ensures var db' := Exec(db, call);
            if Consumes(db, call) && Mentions(call, key) then
              && RightType(View(db, key, call.us), c)
              && Decide(View(db, key, call.us), c, call.us).allowed
              && key in db' && db'[key] == Consume(View(db, key, call.us), c, call.us, call.id)
            else
              (key in db' <==> key in db) && (key in db ==> db'[key] == db[key])
  {
    assert [call][0] == call;
    if Consumes(db, call) {
      if Mentions(call, key) {
        var j :| 0 <= j < |call.rules| && call.rules[j].key == key;
        CommitAllAt(db, call.rules, call.us, call.id, j);
        assert [call][0].rules[j].config == c;
        assert EvalAt(db, call.rules, call.us, j).allowed;
      } else {
        CommitAllElsewhere(db, call.rules, call.us, call.id, key);
      }
    }
  }

  lemma TailFacts(calls: seq<Call>, since: int, key: string, c: Config)
    requires calls != [] && Monotone(calls, since) && AlwaysConfigured(calls, key, c)
    ensures Monotone(calls[1..], calls[0].us) && AlwaysConfigured([calls[0]], key, c) && AlwaysConfigured(calls[1..], key, c)
  {
    assert forall i :: 0 <= i < |calls[1..]| ==> calls[1..][i] == calls[i + 1];
  }

  // ---------------------------------------------------------------- sliding-window log

  ghost function CountIn(times: seq<int>, lo: int, hi: int): nat
    decreases |times|
  {
    if times == [] then 0
    else CountIn(times[..|times| - 1], lo, hi) + if lo < times[|times| - 1] <= hi then 1 else 0
  }

  ghost predicate Sorted(times: seq<int>) {
    forall i, j :: 0 <= i <= j < |times| ==> times[i] <= times[j]
  }

  /** Acceptances that are `limit` or more apart in order are at least a window apart in time. */
  ghost predicate Spaced(times: seq<int>, limit: int, windowMs: int) {
    forall i, j :: 0 <= i < j < |times| && limit <= j - i ==> windowMs <= times[j] - times[i]
  }

  lemma {:induction false} CountedAreConsecutive(times: seq<int>, lo: int, hi: int) returns (end: nat)
    requires Sorted(times)
    ensures end <= |times| && CountIn(times, lo, hi) <= end
    ensures CountIn(times, lo, hi) > 0 ==> lo < times[end - CountIn(times, lo, hi)] && times[end - 1] <= hi
    ensures CountIn(times, lo, hi) > 0 && lo < times[|times| - 1] <= hi ==> end == |times|
    decreases |times|
  {
    if times == [] {
      return 0;
    }
    var init := times[..|times| - 1];
    end := CountedAreConsecutive(init, lo, hi);
    if lo < times[|times| - 1] <= hi {
      if CountIn(init, lo, hi) > 0 {
        assert lo < init[|init| - 1] <= hi;
      }
      end := |times|;
    }
  }

  lemma SpacedMeansLimited(times: seq<int>, limit: int, windowMs: int, lo: int)
    requires Sorted(times) && Spaced(times, limit, windowMs) && limit >= 1 && windowMs > 0
    ensures CountIn(times, lo, lo + windowMs) <= limit
  {
    var end := CountedAreConsecutive(times, lo, lo + windowMs);
    var n := CountIn(times, lo, lo + windowMs);
  }

  ghost function Millis(times: seq<int>): (r: seq<int>)
    ensures |r| == |times|
    ensures forall i :: 0 <= i < |r| ==> r[i] == NowMs(times[i])
  {
    seq(|times|, i requires 0 <= i < |times| => NowMs(times[i]))
  }

  lemma MillisConcat(history: seq<int>, a: seq<int>, b: seq<int>)
    ensures history + Millis(a + b) == history + Millis(a) + Millis(b)
  {
  }

  /**
   The stored entries are the tail of the history; what was dropped, and everything once the key
   has expired, has left the window for good.
   */
  ghost predicate LogTracks(db: Redis, key: string, windowMs: int, history: seq<int>, us: int) {
    && Sorted(history)
    && (forall i :: 0 <= i < |history| ==> history[i] <= NowMs(us))
    && if key in db then LogStored(db[key], windowMs, history) else history == []
  }

  ghost predicate LogStored(e: Stored, windowMs: int, history: seq<int>) {
    && e.value.SortedSet?
    && 0 < |e.value.entries| <= |history|
    && (forall i :: 0 <= i < |e.value.entries| ==>
          e.value.entries[i].score == history[|history| - |e.value.entries| + i])
    && (forall i :: 0 <= i < |history| - |e.value.entries| ==> history[i] <= history[|history| - 1] - windowMs)
    && e.expireAt == history[|history| - 1] + windowMs + 1000
  }

  /** The part of the log the script still counts. */
  function Tail(e: Option<Stored>, windowMs: int, us: int): seq<Entry> {
    Entries(e)[Rank(Entries(e), NowMs(us) - windowMs)..]
  }

  /** What the script counts, in terms of the history. */
  lemma LogSeen(db: Redis, key: string, windowMs: int, history: seq<int>, since: int, us: int) returns (kept: nat)
    requires windowMs > 0 && since <= us && LogTracks(db, key, windowMs, history, since)
    ensures var tail := Tail(View(db, key, us), windowMs, us);
            && |history| == kept + |tail|
            && (forall i :: 0 <= i < kept ==> history[i] <= NowMs(us) - windowMs)
            && (forall i :: 0 <= i < |tail| ==> tail[i].score == history[kept + i])
  {
    var now := NowMs(us);
    assert NowMs(since) <= now;
    kept := |history| - |Tail(View(db, key, us), windowMs, us)|;
    if View(db, key, us).Some? {
      var entries := db[key].value.entries;
      var gone := Rank(entries, now - windowMs);
      var hidden := |history| - |entries|;
      forall i | 0 <= i < hidden + gone
        ensures history[i] <= now - windowMs
      {
        if hidden <= i {
          assert entries[i - hidden].score == history[i];
        }
      }
    }
  }

  lemma AppendSpaced(history: seq<int>, kept: nat, limit: int, windowMs: int, now: int)
    requires kept <= |history| && |history| - kept < limit && limit >= 1
    requires Spaced(history, limit, windowMs)
    requires forall i :: 0 <= i < kept ==> history[i] <= now - windowMs
    ensures Spaced(history + [now], limit, windowMs)
  {
  }

  lemma AppendStored(history: seq<int>, kept: nat, tail: seq<Entry>, windowMs: int, now: int, id: string)
    requires |history| == kept + |tail|
    requires forall i :: 0 <= i < |tail| ==> tail[i].score == history[kept + i]
    requires forall i :: 0 <= i < kept ==> history[i] <= now - windowMs
    ensures LogStored(Stored(SortedSet(tail + [Entry(now, id)]), now + windowMs + 1000), windowMs, history + [now])
  {
  }

  /** A call either leaves the log alone or appends its time to the part that still counts. */
  ghost predicate LogMoves(db: Redis, db': Redis, key: string, limit: int, windowMs: int, us: int, taken: seq<int>) {
    if taken == [] then
      (key in db' <==> key in db) && (key in db ==> db'[key] == db[key])
    else
      var tail := Tail(View(db, key, us), windowMs, us);
      && taken == [us] && |tail| < limit
      && key in db' && exists id :: db'[key] == Stored(SortedSet(tail + [Entry(NowMs(us), id)]),
                                                       NowMs(us) + windowMs + 1000)
  }

  lemma CallMovesLog(db: Redis, call: Call, key: string, limit: int, windowMs: int)
    requires ValidRules(call.rules) && limit >= 1 && windowMs > 0
    requires AlwaysConfigured([call], key, SlidingLog(limit, windowMs))
    ensures LogMoves(db, Exec(db, call), key, limit, windowMs, call.us, Taken(db, call, key))
  {
    CallAtKey(db, call, key, SlidingLog(limit, windowMs));
  }

  lemma LogConsumed(db: Redis, db': Redis, key: string, limit: int, windowMs: int, history: seq<int>, since: int, us: int)
    requires limit >= 1 && windowMs > 0 && since <= us
    requires LogMoves(db, db', key, limit, windowMs, us, [us])
    requires LogTracks(db, key, windowMs, history, since) && Spaced(history, limit, windowMs)
    ensures LogTracks(db', key, windowMs, history + [NowMs(us)], us)
    ensures Spaced(history + [NowMs(us)], limit, windowMs)
  {
    var now := NowMs(us);
    assert NowMs(since) <= now;
    var tail := Tail(View(db, key, us), windowMs, us);
    var id :| db'[key] == Stored(SortedSet(tail + [Entry(now, id)]), now + windowMs + 1000);
    var kept := LogSeen(db, key, windowMs, history, since, us);
    AppendStored(history, kept, tail, windowMs, now, id);
    AppendSpaced(history, kept, limit, windowMs, now);
  }

  lemma LogStep(db: Redis, db': Redis, key: string, limit: int, windowMs: int, history: seq<int>, since: int, us: int,
                taken: seq<int>)
    requires limit >= 1 && windowMs > 0 && since <= us
    requires LogMoves(db, db', key, limit, windowMs, us, taken)
    requires LogTracks(db, key, windowMs, history, since) && Spaced(history, limit, windowMs)
    ensures LogTracks(db', key, windowMs, history + Millis(taken), us)
    ensures Spaced(history + Millis(taken), limit, windowMs)
  {
    if taken == [] {
      assert NowMs(since) <= NowMs(us);
      assert history + Millis([]) == history;
    } else {
      LogConsumed(db, db', key, limit, windowMs, history, since, us);
      assert Millis([us]) == [NowMs(us)];
    }
  }

  lemma LogCall(db: Redis, call: Call, key: string, limit: int, windowMs: int, history: seq<int>, since: int)
    requires ValidRules(call.rules) && limit >= 1 && windowMs > 0 && since <= call.us
    requires AlwaysConfigured([call], key, SlidingLog(limit, windowMs))
    requires LogTracks(db, key, windowMs, history, since) && Spaced(history, limit, windowMs)
    ensures LogTracks(Exec(db, call), key, windowMs, history + Millis(Taken(db, call, key)), call.us)
    ensures Spaced(history + Millis(Taken(db, call, key)), limit, windowMs)
  {
    var db' := Exec(db, call);
    var taken := Taken(db, call, key);
    CallMovesLog(db, call, key, limit, windowMs);
    LogStep(db, db', key, limit, windowMs, history, since, call.us, taken);
  }

  lemma {:induction false} LogRun(db: Redis, calls: seq<Call>, key: string, limit: int, windowMs: int,
                                  history: seq<int>, since: int)
    requires ValidCalls(calls) && limit >= 1 && windowMs > 0 && Monotone(calls, since)
    requires AlwaysConfigured(calls, key, SlidingLog(limit, windowMs))
    requires LogTracks(db, key, windowMs, history, since) && Spaced(history, limit, windowMs)
    ensures var all := history + Millis(Accepted(db, calls, key)); Sorted(all) && Spaced(all, limit, windowMs)
    decreases |calls|
  {
    if calls == [] {
      assert history + Millis([]) == history;
    } else {
      TailFacts(calls, since, key, SlidingLog(limit, windowMs));
      var call := calls[0];
      var taken := Taken(db, call, key);
      LogCall(db, call, key, limit, windowMs, history, since);
      LogRun(Exec(db, call), calls[1..], key, limit, windowMs, history + Millis(taken), call.us);
      var rest := Accepted(Exec(db, call), calls[1..], key);
      MillisConcat(history, taken, rest);
    }
  }

  /** At most `limit` acceptances in any window, on the script's own millisecond clock. */
  lemma LogNeverExceedsItsLimit(db: Redis, calls: seq<Call>, key: string, limit: int, windowMs: int, since: int, lo: int)
    requires ValidCalls(calls) && ValidConfig(SlidingLog(limit, windowMs)) && Monotone(calls, since)
    requires AlwaysConfigured(calls, key, SlidingLog(limit, windowMs))
    requires key !in db
    ensures CountIn(Millis(Accepted(db, calls, key)), lo, lo + windowMs) <= limit
  {
    LogRun(db, calls, key, limit, windowMs, [], since);
    var times := Millis(Accepted(db, calls, key));
    assert [] + times == times;
    SpacedMeansLimited(times, limit, windowMs, lo);
  }

  /** Waiting `retry` seconds is always long enough, even when the key expires meanwhile. */
  lemma LogRetrySuffices(db: Redis, key: string, limit: int, windowMs: int, us: int, later: int)
    requires ValidConfig(SlidingLog(limit, windowMs))
    requires View(db, key, us).Some? ==> ScoresSorted(Entries(View(db, key, us)))
    requires var d := Decide(View(db, key, us), SlidingLog(limit, windowMs), us);
             !d.allowed && us + d.retry * 1000000 <= later
    ensures Decide(View(db, key, later), SlidingLog(limit, windowMs), later).allowed
  {
    var entries := Entries(View(db, key, us));
    var gone := Rank(entries, NowMs(us) - windowMs);
    var count := |entries| - gone;
    var pivot := entries[gone + count - limit].score;
    var retry := Decide(View(db, key, us), SlidingLog(limit, windowMs), us).retry;
    assert pivot + windowMs - NowMs(us) <= retry * 1000;
    assert NowMs(us) + retry * 1000 <= NowMs(later);
    if View(db, key, later).Some? && gone + count - limit < |Entries(View(db, key, later))| {
      RankIsBeyond(entries, NowMs(later) - windowMs, gone + count - limit);
    }
  }

  lemma {:induction false} RankIsBeyond(entries: seq<Entry>, x: int, i: nat)
    requires ScoresSorted(entries) && i < |entries| && entries[i].score <= x
    ensures i < Rank(entries, x)
    decreases i
  {
    if 0 < i {
      RankIsBeyond(entries[1..], x, i - 1);
    }
  }

  lemma {:induction false} LogStaysTracked(db: Redis, calls: seq<Call>, key: string, limit: int, windowMs: int,
                                           history: seq<int>, since: int) returns (all: seq<int>, last: int)
    requires ValidCalls(calls) && limit >= 1 && windowMs > 0 && Monotone(calls, since)
    requires AlwaysConfigured(calls, key, SlidingLog(limit, windowMs))
    requires LogTracks(db, key, windowMs, history, since) && Spaced(history, limit, windowMs)
    ensures LogTracks(After(db, calls), key, windowMs, all, last)
    decreases |calls|
  {
    if calls == [] {
      return history, since;
    }
    TailFacts(calls, since, key, SlidingLog(limit, windowMs));
    LogCall(db, calls[0], key, limit, windowMs, history, since);
    all, last := LogStaysTracked(Exec(db, calls[0]), calls[1..], key, limit, windowMs,
                                 history + Millis(Taken(db, calls[0], key)), calls[0].us);
  }

  /** So the wait holds after any run, over any mix of rules, that starts without the key. */
  lemma LogRetrySufficesAfterRuns(db: Redis, calls: seq<Call>, key: string, limit: int, windowMs: int, since: int,
                                  us: int, later: int)
    requires ValidCalls(calls) && ValidConfig(SlidingLog(limit, windowMs)) && Monotone(calls, since) && key !in db
    requires AlwaysConfigured(calls, key, SlidingLog(limit, windowMs))
    requires var d := Decide(View(After(db, calls), key, us), SlidingLog(limit, windowMs), us);
             !d.allowed && us + d.retry * 1000000 <= later
    ensures Decide(View(After(db, calls), key, later), SlidingLog(limit, windowMs), later).allowed
  {
    var all, last := LogStaysTracked(db, calls, key, limit, windowMs, [], since);
    TrackedIsSorted(After(db, calls), key, windowMs, all, last, us);
    LogRetrySuffices(After(db, calls), key, limit, windowMs, us, later);
  }

  lemma TrackedIsSorted(db: Redis, key: string, windowMs: int, history: seq<int>, last: int, us: int)
    requires LogTracks(db, key, windowMs, history, last)
    ensures View(db, key, us).Some? ==> ScoresSorted(Entries(View(db, key, us)))
  {
  }

  // ---------------------------------------------------------------- fixed window

  /**
   After a rejection `retry` seconds reach the key's expiry; the rule then allows at once, except
   in the very millisecond of the expiry, in which Redis still keeps the key. No fewer seconds do.
   */
  lemma FixedRetryReachesExpiry(db: Redis, key: string, limit: int, windowMs: int, us: int, later: int)
    requires ValidConfig(FixedWindow(limit, windowMs))
    requires var d := Decide(View(db, key, us), FixedWindow(limit, windowMs), us);
             !d.allowed && us + d.retry * 1000000 <= later
    ensures key in db && db[key].expireAt <= NowMs(later)
    ensures Decide(View(db, key, later), FixedWindow(limit, windowMs), later).allowed <==>
            NowMs(later) != db[key].expireAt
    ensures forall n: nat :: n < Decide(View(db, key, us), FixedWindow(limit, windowMs), us).retry ==>
              !Decide(View(db, key, us + n * 1000000), FixedWindow(limit, windowMs), us + n * 1000000).allowed
  {
    var d := Decide(View(db, key, us), FixedWindow(limit, windowMs), us);
    assert NowMs(us) + d.retry * 1000 <= NowMs(later);
    assert db[key].expireAt - NowMs(us) <= d.retry * 1000;
    forall n: nat | n < d.retry
      ensures !Decide(View(db, key, us + n * 1000000), FixedWindow(limit, windowMs), us + n * 1000000).allowed
    {
      assert NowMs(us + n * 1000000) == NowMs(us) + n * 1000;
      assert NowMs(us) + n * 1000 <= db[key].expireAt;
    }
  }

  /** It happens: one request per second, and the next one exactly the answered second later is refused. */
  lemma FixedRetryCanFallShort()
    ensures var c := FixedWindow(1, 1000);
            var db: Redis := map["k" := Consume(None, c, 0, "")];
            var d := Decide(View(db, "k", 0), c, 0);
            !d.allowed && !Decide(View(db, "k", d.retry * 1000000), c, d.retry * 1000000).allowed
  {
    var c := FixedWindow(1, 1000);
    var db: Redis := map["k" := Consume(None, c, 0, "")];
    assert db["k"] == Stored(Text(1), 1000);
    assert Decide(View(db, "k", 0), c, 0).retry == 1;
  }
}

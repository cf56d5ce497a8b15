/** The token bucket: its rate bound, its waiting time, and why its expiry cannot be noticed. */
module RateLimitBucket {
  import opened Common
  import opened RateLimit
  import opened RateLimitRuns

  function Seconds(micros: int): real {
    micros as real / MICROS
  }

  /** A stored bucket that only this rule writes, last touched no later than `us`. */
  ghost predicate BucketOk(e: Stored, max: real, rate: real, us: int)
    requires rate > 0.0
  {
    && e.value.Hash? && e.value.window.None? && e.value.bucket.Some?
    && 0.0 <= e.value.bucket.value.tokens <= max
    && e.value.bucket.value.ts <= us
    && e.expireAt == NowMs(e.value.bucket.value.ts) + (Ceil(max / rate) + 1) * 1000
  }

  ghost predicate BucketKey(db: Redis, key: string, max: real, rate: real, us: int)
    requires rate > 0.0
  {
    key in db ==> BucketOk(db[key], max, rate, us)
  }

  lemma ScaleUp(a: real, b: real, rate: real)
    requires a <= b && rate > 0.0
    ensures a * rate <= b * rate
  {
  }

  /** Once expired, a bucket would have been full anyway. */
  lemma ExpiredIsFull(e: Stored, max: real, rate: real, us: int)
    requires rate > 0.0 && max > 0.0 && BucketOk(e, max, rate, us)
    requires e.expireAt < NowMs(us)
    ensures Refilled(e.value.bucket.value, max, rate, us) == max
  {
    var b := e.value.bucket.value;
    var full := Ceil(max / rate);
    assert full * 1000000 <= us - b.ts;
    assert Max(0, us - b.ts) == us - b.ts;
    var elapsed := Max(0, us - b.ts) as real / MICROS;
    assert full as real <= elapsed;
    ScaleUp(max / rate, elapsed, rate);
    assert (max / rate) * rate == max;
  }

  ghost function TokensAt(db: Redis, key: string, max: real, rate: real, us: int): real {
    Tokens(View(db, key, us), max, rate, us)
  }

  /** The script sees the tokens of the kept bucket, whether or not Redis has dropped it. */
  lemma ExpiryIsInvisible(db: Redis, key: string, max: real, rate: real, us: int)
    requires rate > 0.0 && max > 0.0 && BucketKey(db, key, max, rate, us)
    ensures key in db ==> TokensAt(db, key, max, rate, us) == Refilled(db[key].value.bucket.value, max, rate, us)
    ensures key !in db ==> TokensAt(db, key, max, rate, us) == max
    ensures 0.0 <= TokensAt(db, key, max, rate, us) <= max
  {
    assert Refilled(Bucket(max, us), max, rate, us) == max;
    if key in db {
      var b := db[key].value.bucket.value;
      ScaleUp(0.0, Max(0, us - b.ts) as real / MICROS, rate);
      if View(db, key, us).None? {
        ExpiredIsFull(db[key], max, rate, us);
      }
    }
  }

  lemma Distribute(a: real, b: real, rate: real)
    ensures (a + b) * rate == a * rate + b * rate
  {
  }

  /** While nothing is consumed, tokens grow, and at most at the refill rate. */
  lemma TokensDrift(db: Redis, key: string, max: real, rate: real, us: int, later: int)
    requires rate > 0.0 && max > 0.0 && BucketKey(db, key, max, rate, us) && us <= later
    ensures TokensAt(db, key, max, rate, us) <= TokensAt(db, key, max, rate, later)
    ensures TokensAt(db, key, max, rate, later) ==
            RealMin(max, TokensAt(db, key, max, rate, us) + Seconds(later - us) * rate)
  {
    ExpiryIsInvisible(db, key, max, rate, us);
    ExpiryIsInvisible(db, key, max, rate, later);
    if key in db {
      RefilledDrift(db[key].value.bucket.value, max, rate, us, later);
    } else {
      ScaleUp(0.0, Seconds(later - us), rate);
    }
  }

  lemma RefilledDrift(b: Bucket, max: real, rate: real, us: int, later: int)
    requires rate > 0.0 && b.ts <= us <= later
    ensures Refilled(b, max, rate, us) <= Refilled(b, max, rate, later)
    ensures Refilled(b, max, rate, later) == RealMin(max, Refilled(b, max, rate, us) + Seconds(later - us) * rate)
  {
    ScaleUp(0.0, Seconds(later - us), rate);
    Distribute(Seconds(us - b.ts), Seconds(later - us), rate);
    assert Seconds(later - b.ts) == Seconds(us - b.ts) + Seconds(later - us);
  }

  /** What one call does to the bucket. */
  lemma BucketCall(db: Redis, call: Call, key: string, max: real, rate: real, since: int)
    requires ValidRules(call.rules) && max > 0.0 && rate > 0.0 && since <= call.us
    requires AlwaysConfigured([call], key, TokenBucket(max, rate))
    requires BucketKey(db, key, max, rate, since)
    ensures BucketKey(Exec(db, call), key, max, rate, call.us)
    ensures TokensAt(Exec(db, call), key, max, rate, call.us) ==
            TokensAt(db, key, max, rate, call.us) - |Taken(db, call, key)| as real
  {
    var db' := Exec(db, call);
    CallAtKey(db, call, key, TokenBucket(max, rate));
    ExpiryIsInvisible(db, key, max, rate, call.us);
    if Taken(db, call, key) != [] {
      ConsumedBucket(View(db, key, call.us), db'[key], max, rate, call.us, call.id);
      ExpiryIsInvisible(db', key, max, rate, call.us);
    }
  }

  lemma ConsumedBucket(e: Option<Stored>, e': Stored, max: real, rate: real, us: int, id: string)
    requires max > 0.0 && rate > 0.0
    requires e.Some? ==> BucketOk(e.value, max, rate, us)
    requires e' == Consume(e, TokenBucket(max, rate), us, id)
    requires 1.0 <= Tokens(e, max, rate, us) <= max
    ensures BucketOk(e', max, rate, us)
    ensures Refilled(e'.value.bucket.value, max, rate, us) == Tokens(e, max, rate, us) - 1.0
  {
    var b := e'.value.bucket.value;
    assert Max(0, us - b.ts) == 0;
    assert (0 as real / MICROS) * rate == 0.0;
  }

  /** `n` requests are paid for with tokens held at `since` or refilled up to `until`. */
  ghost predicate Pays(n: nat, db: Redis, db': Redis, key: string, max: real, rate: real, since: int, until: int) {
    n as real + TokensAt(db', key, max, rate, until) <= TokensAt(db, key, max, rate, since) + Seconds(until - since) * rate
  }

  lemma SplitTime(a: int, b: int, c: int, rate: real)
    ensures Seconds(c - a) * rate == Seconds(b - a) * rate + Seconds(c - b) * rate
  {
    Distribute(Seconds(b - a), Seconds(c - b), rate);
  }

  lemma PaysInTurn(m: nat, n: nat, a: Redis, b: Redis, c: Redis, key: string, max: real, rate: real,
                   since: int, mid: int, until: int)
    requires Pays(m, a, b, key, max, rate, since, mid) && Pays(n, b, c, key, max, rate, mid, until)
    ensures Pays(m + n, a, c, key, max, rate, since, until)
  {
    SplitTime(since, mid, until, rate);
  }

  lemma BucketPays(db: Redis, call: Call, key: string, max: real, rate: real, since: int)
    requires ValidRules(call.rules) && max > 0.0 && rate > 0.0 && since <= call.us
    requires AlwaysConfigured([call], key, TokenBucket(max, rate))
    requires BucketKey(db, key, max, rate, since)
    ensures BucketKey(Exec(db, call), key, max, rate, call.us)
    ensures Pays(|Taken(db, call, key)|, db, Exec(db, call), key, max, rate, since, call.us)
  {
    TokensDrift(db, key, max, rate, since, call.us);
    BucketCall(db, call, key, max, rate, since);
  }

  lemma {:induction false} BucketRun(db: Redis, calls: seq<Call>, key: string, max: real, rate: real,
                                     since: int, until: int)
    requires ValidCalls(calls) && max > 0.0 && rate > 0.0
    requires Monotone(calls, since) && since <= until && forall i :: 0 <= i < |calls| ==> calls[i].us <= until
    requires AlwaysConfigured(calls, key, TokenBucket(max, rate))
    requires BucketKey(db, key, max, rate, since)
    ensures BucketKey(After(db, calls), key, max, rate, until)
    ensures Pays(|Accepted(db, calls, key)|, db, After(db, calls), key, max, rate, since, until)
    decreases |calls|
  {
    if calls == [] {
      TokensDrift(db, key, max, rate, since, until);
    } else {
      var call := calls[0];
      TailFacts(calls, since, key, TokenBucket(max, rate));
      BucketPays(db, call, key, max, rate, since);
      var mid := Exec(db, call);
      BucketRun(mid, calls[1..], key, max, rate, call.us, until);
      PaysInTurn(|Taken(db, call, key)|, |Accepted(mid, calls[1..], key)|, db, mid, After(mid, calls[1..]),
                 key, max, rate, since, call.us, until);
    }
  }

  /**
   In any stretch of any run, of `until - since` microseconds, the bucket lets through at most
   `maxTokens` plus what it refills in that time. `before` is the run up to the stretch.
   */
  lemma BucketRateBound(db: Redis, before: seq<Call>, calls: seq<Call>, key: string, max: real, rate: real,
                        start: int, since: int, until: int)
    requires ValidCalls(before) && ValidCalls(calls) && max > 0.0 && rate > 0.0
    requires Monotone(before, start) && start <= since && forall i :: 0 <= i < |before| ==> before[i].us <= since
    requires Monotone(calls, since) && since <= until && forall i :: 0 <= i < |calls| ==> calls[i].us <= until
    requires AlwaysConfigured(before, key, TokenBucket(max, rate)) && AlwaysConfigured(calls, key, TokenBucket(max, rate))
    requires key !in db
    ensures |Accepted(After(db, before), calls, key)| as real <= max + Seconds(until - since) * rate
  {
    BucketRun(db, before, key, max, rate, start, since);
    var mid := After(db, before);
    BucketRun(mid, calls, key, max, rate, since, until);
    ExpiryIsInvisible(mid, key, max, rate, since);
    ExpiryIsInvisible(After(mid, calls), key, max, rate, until);
  }

  /** The same store with the key kept: whatever it holds is still visible at `us`. */
  ghost function Kept(db: Redis, key: string, us: int): Redis {
    if key in db then db[key := db[key].(expireAt := Max(db[key].expireAt, NowMs(us)))] else db
  }

  /** Two stores that differ at most in how long the bucket's key lives. */
  ghost predicate Alike(db: Redis, kept: Redis, key: string) {
    && db.Keys == kept.Keys
    && (forall k :: k in db && k != key ==> kept[k] == db[k])
    && (key in db ==> kept[key].value == db[key].value)
  }

  lemma KeptBucketDecidesAlike(db: Redis, kept: Redis, key: string, max: real, rate: real, us: int, id: string)
    requires max > 0.0 && rate > 0.0 && BucketKey(db, key, max, rate, us) && Alike(db, kept, key)
    ensures var c := TokenBucket(max, rate);
            var e := View(db, key, us);
            var e' := View(Kept(kept, key, us), key, us);
            && RightType(e, c) && RightType(e', c)
            && Decide(e', c, us) == Decide(e, c, us)
            && Consume(e', c, us, id) == Consume(e, c, us, id)
  {
    ExpiryIsInvisible(db, key, max, rate, us);
  }

  lemma OtherKeysAlike(db: Redis, kept: Redis, key: string, us: int, k: string)
    requires Alike(db, kept, key) && k != key
    ensures View(Kept(kept, key, us), k, us) == View(db, k, us)
  {
  }

  lemma CallAlike(db: Redis, kept: Redis, call: Call, key: string, max: real, rate: real)
    requires ValidRules(call.rules) && max > 0.0 && rate > 0.0
    requires AlwaysConfigured([call], key, TokenBucket(max, rate))
    requires BucketKey(db, key, max, rate, call.us) && Alike(db, kept, key)
    ensures Consumes(Kept(kept, key, call.us), call) <==> Consumes(db, call)
    ensures Alike(Exec(db, call), Exec(Kept(kept, key, call.us), call), key)
  {
    var kept' := Kept(kept, key, call.us);
    assert [call][0] == call;
    forall i | 0 <= i < |call.rules|
      ensures RightType(View(kept', call.rules[i].key, call.us), call.rules[i].config) ==
              RightType(View(db, call.rules[i].key, call.us), call.rules[i].config)
      ensures EvalAt(kept', call.rules, call.us, i) == EvalAt(db, call.rules, call.us, i)
      ensures Consume(View(kept', call.rules[i].key, call.us), call.rules[i].config, call.us, call.id) ==
              Consume(View(db, call.rules[i].key, call.us), call.rules[i].config, call.us, call.id)
    {
      if call.rules[i].key == key {
        assert [call][0].rules[i].config == TokenBucket(max, rate);
        KeptBucketDecidesAlike(db, kept, key, max, rate, call.us, call.id);
      } else {
        OtherKeysAlike(db, kept, key, call.us, call.rules[i].key);
      }
    }
    assert TypesFit(kept', call.rules, call.us) == TypesFit(db, call.rules, call.us);
    assert AllAllow(kept', call.rules, call.us) == AllAllow(db, call.rules, call.us);
    CommitAlike(db, kept', call.rules, call.us, call.id, key);
  }

  lemma {:induction false} CommitAlike(db: Redis, kept: Redis, rules: seq<Rule>, us: int, id: string, key: string)
    requires forall i :: 0 <= i < |rules| ==> ValidConfig(rules[i].config)
    requires Alike(db, kept, key)
    requires forall i :: 0 <= i < |rules| ==>
               Consume(View(kept, rules[i].key, us), rules[i].config, us, id) ==
               Consume(View(db, rules[i].key, us), rules[i].config, us, id)
    ensures Alike(CommitAll(db, rules, us, id), CommitAll(kept, rules, us, id), key)
    decreases |rules|
  {
    if rules != [] {
      CommitAlike(db, kept, rules[..|rules| - 1], us, id, key);
    }
  }

  /** The run in which the bucket is kept forever. */
  ghost function AcceptedKept(db: Redis, calls: seq<Call>, key: string): seq<int>
    requires ValidCalls(calls)
    decreases |calls|
  {
    if calls == [] then []
    else
      var kept := Kept(db, key, calls[0].us);
      Taken(kept, calls[0], key) + AcceptedKept(Exec(kept, calls[0]), calls[1..], key)
  }

  lemma {:induction false} KeptRunAcceptsAlike(db: Redis, kept: Redis, calls: seq<Call>, key: string,
                                               max: real, rate: real, since: int)
    requires ValidCalls(calls) && max > 0.0 && rate > 0.0 && Monotone(calls, since)
    requires AlwaysConfigured(calls, key, TokenBucket(max, rate))
    requires BucketKey(db, key, max, rate, since) && Alike(db, kept, key)
    ensures AcceptedKept(kept, calls, key) == Accepted(db, calls, key)
    decreases |calls|
  {
    if calls != [] {
      var call := calls[0];
      TailFacts(calls, since, key, TokenBucket(max, rate));
      CallAlike(db, kept, call, key, max, rate);
      BucketPays(db, call, key, max, rate, since);
      KeptRunAcceptsAlike(Exec(db, call), Exec(Kept(kept, key, call.us), call), calls[1..], key, max, rate, call.us);
    }
  }

  /** What the script answers, in terms of the tokens it sees. */
  lemma BucketAnswer(db: Redis, key: string, max: real, rate: real, us: int)
    requires max > 0.0 && rate > 0.0
    ensures var eval := Decide(View(db, key, us), TokenBucket(max, rate), us);
            && (eval.allowed <==> 1.0 <= TokensAt(db, key, max, rate, us))
            && (!eval.allowed ==> eval.retry == Ceil((1.0 - TokensAt(db, key, max, rate, us)) / rate))
  {
    assert Decide(View(db, key, us), TokenBucket(max, rate), us) == DecideBucket(View(db, key, us), max, rate, us);
  }

  lemma SameMinimum(max: real, now: real, seconds: real, n: real, rate: real)
    requires seconds == n
    ensures RealMin(max, now + seconds * rate) == RealMin(max, now + n * rate)
  {
  }

  /** What `n` whole seconds add. */
  lemma TokensAfter(db: Redis, key: string, max: real, rate: real, us: int, n: nat, later: int)
    requires max > 0.0 && rate > 0.0 && BucketKey(db, key, max, rate, us) && later == us + n * 1000000
    ensures TokensAt(db, key, max, rate, later) == RealMin(max, TokensAt(db, key, max, rate, us) + n as real * rate)
  {
    TokensDrift(db, key, max, rate, us, later);
    SameMinimum(max, TokensAt(db, key, max, rate, us), Seconds(later - us), n as real, rate);
  }

  /** With a capacity of at least one token, `n` whole seconds are enough exactly from `retry` on. */
  lemma BucketRetryIsExact(db: Redis, key: string, max: real, rate: real, us: int, n: nat)
    requires max >= 1.0 && rate > 0.0 && BucketKey(db, key, max, rate, us)
    requires !Decide(View(db, key, us), TokenBucket(max, rate), us).allowed
    ensures var c := TokenBucket(max, rate); var later := us + n * 1000000;
            Decide(View(db, key, later), c, later).allowed <==> Decide(View(db, key, us), c, us).retry <= n
  {
    var later := us + n * 1000000;
    BucketAnswer(db, key, max, rate, us);
    BucketAnswer(db, key, max, rate, later);
    TokensAfter(db, key, max, rate, us, n, later);
    WaitIsExact(TokensAt(db, key, max, rate, us), max, rate, n);
  }

  lemma WaitIsExact(tokens: real, max: real, rate: real, n: int)
    requires rate > 0.0 && max >= 1.0
    ensures 1.0 <= RealMin(max, tokens + n as real * rate) <==> Ceil((1.0 - tokens) / rate) <= n
  {
    var wait := (1.0 - tokens) / rate;
    assert wait * rate == 1.0 - tokens;
    assert wait <= n as real <==> Ceil(wait) <= n;
    assert wait <= n as real ==> wait * rate <= n as real * rate;
    assert n as real < wait ==> n as real * rate < wait * rate;
  }

  /** With a smaller capacity no wait is ever enough, whatever `retry` says. */
  lemma TinyBucketNeverAllows(db: Redis, key: string, max: real, rate: real, us: int)
    requires 0.0 < max < 1.0 && rate > 0.0 && BucketKey(db, key, max, rate, us)
    ensures !Decide(View(db, key, us), TokenBucket(max, rate), us).allowed
  {
    ExpiryIsInvisible(db, key, max, rate, us);
  }
}

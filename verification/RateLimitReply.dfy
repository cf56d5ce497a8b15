/** What the numbers of a reply mean: how many more requests pass now, and how long a rejected one must wait. */
module RateLimitReply {
  import opened Common
  import opened RateLimit
  import opened RateLimitRuns
  import opened RateLimitCounter

  // ---------------------------------------------------------------- remaining

  lemma FloorIsAbove(x: real, n: int)
    ensures x.Floor >= n <==> x >= n as real
  {
  }

  /** A rule allows exactly when it has at least one request left. */
  lemma AllowedIffSomeAvailable(e: Option<Stored>, c: Config, us: int)
    requires ValidConfig(c)
    ensures Decide(e, c, us).allowed <==> Decide(e, c, us).available >= 1
  {
    match c
    case TokenBucket(maxTokens, refillRate) => FloorIsAbove(Tokens(e, maxTokens, refillRate, us), 1);
    case FixedWindow(limit, windowMs) =>
    case SlidingLog(limit, windowMs) =>
    case SlidingCounter(limit, windowMs) => FloorIsAbove(limit as real - Estimate(e, us, windowMs) + EPSILON, 1);
  }

  lemma FloorOfLess(x: real)
    ensures (x - 1.0).Floor == x.Floor - 1
  {
  }

  lemma BucketTakesOne(e: Option<Stored>, max: real, rate: real, us: int, id: string)
    requires max > 0.0 && rate > 0.0
    ensures Tokens(Some(Consume(e, TokenBucket(max, rate), us, id)), max, rate, us) == Tokens(e, max, rate, us) - 1.0
  {
    assert (0 as real / MICROS) * rate == 0.0;
  }

  lemma LogTakesOne(e: Option<Stored>, limit: int, windowMs: int, us: int, id: string)
    requires limit >= 1 && windowMs > 0
    ensures |Tail(Some(Consume(e, SlidingLog(limit, windowMs), us, id)), windowMs, us)| == |Tail(e, windowMs, us)| + 1
  {
    var entries := Tail(e, windowMs, us) + [Entry(NowMs(us), id)];
    assert Entries(Some(Consume(e, SlidingLog(limit, windowMs), us, id))) == entries;
    assert NowMs(us) - windowMs < entries[0].score;
    assert Rank(entries, NowMs(us) - windowMs) == 0;
  }

  lemma CounterTakesOne(e: Option<Stored>, limit: int, windowMs: int, us: int, id: string)
    requires limit >= 1 && windowMs > 0
    ensures Estimate(Some(Consume(e, SlidingCounter(limit, windowMs), us, id)), us, windowMs) ==
            Estimate(e, us, windowMs) + 1.0
  {
  }

  /** Consuming takes exactly one of the requests left at that moment, and leaves the key where the script sees it. */
  lemma ConsumingTakesOne(e: Option<Stored>, c: Config, us: int, id: string)
    requires ValidConfig(c) && RightType(e, c) && Decide(e, c, us).allowed
    requires e.Some? ==> NowMs(us) <= e.value.expireAt
    ensures var e' := Some(Consume(e, c, us, id));
            && Decide(e', c, us).available == Decide(e, c, us).available - 1
            && RightType(e', c) && NowMs(us) <= e'.value.expireAt
  {
    match c
    case TokenBucket(maxTokens, refillRate) =>
      BucketTakesOne(e, maxTokens, refillRate, us, id);
      FloorOfLess(Tokens(e, maxTokens, refillRate, us));
      BucketLives(maxTokens, refillRate);
    case FixedWindow(limit, windowMs) =>
    case SlidingLog(limit, windowMs) =>
      LogTakesOne(e, limit, windowMs, us, id);
    case SlidingCounter(limit, windowMs) =>
      CounterTakesOne(e, limit, windowMs, us, id);
      FloorOfLess(limit as real - Estimate(e, us, windowMs) + EPSILON);
  }

  lemma BucketLives(max: real, rate: real)
    requires max > 0.0 && rate > 0.0
    ensures Ceil(max / rate) >= 0
  {
    assert (max / rate) * rate == max;
  }

  /** The key after a burst of requests within one reading of the clock. */
  function Burst(e: Option<Stored>, c: Config, us: int, ids: seq<string>): Option<Stored>
    requires ValidConfig(c)
    decreases |ids|
  {
    if ids == [] then e else Burst(Some(Consume(e, c, us, ids[0])), c, us, ids[1..])
  }

  /** The number left is exact: that many more requests pass at this moment, and then none. */
  lemma {:induction false} AvailableIsExact(e: Option<Stored>, c: Config, us: int, ids: seq<string>)
    requires ValidConfig(c) && RightType(e, c) && (e.Some? ==> NowMs(us) <= e.value.expireAt)
    requires |ids| <= Decide(e, c, us).available
    ensures Decide(Burst(e, c, us, ids), c, us).available == Decide(e, c, us).available - |ids|
    ensures Decide(Burst(e, c, us, ids), c, us).allowed <==> |ids| < Decide(e, c, us).available
    decreases |ids|
  {
    AllowedIffSomeAvailable(Burst(e, c, us, ids), c, us);
    if ids != [] {
      AllowedIffSomeAvailable(e, c, us);
      ConsumingTakesOne(e, c, us, ids[0]);
      AvailableIsExact(Some(Consume(e, c, us, ids[0])), c, us, ids[1..]);
    }
  }

  // ---------------------------------------------------------------- the log's wait is exact

  /** A log as the script leaves it: in order, and alive while its last entry is in the window. */
  ghost predicate LogLives(db: Redis, key: string, windowMs: int) {
    key in db && db[key].value.SortedSet? ==>
      var entries := db[key].value.entries;
      ScoresSorted(entries) && forall i :: 0 <= i < |entries| ==> entries[i].score + windowMs <= db[key].expireAt
  }

  lemma TrackedLogLives(db: Redis, key: string, windowMs: int, history: seq<int>, us: int)
    requires LogTracks(db, key, windowMs, history, us)
    ensures LogLives(db, key, windowMs)
  {
    if key in db {
      var entries := db[key].value.entries;
      forall i | 0 <= i < |entries|
        ensures entries[i].score <= history[|history| - 1]
      {
        assert entries[i].score == history[|history| - |entries| + i];
      }
    }
  }

  /** `n` whole seconds after a rejection the log allows exactly from `retry` on. */
  lemma LogRetryIsExact(db: Redis, key: string, limit: int, windowMs: int, us: int, n: nat)
    requires ValidConfig(SlidingLog(limit, windowMs)) && LogLives(db, key, windowMs)
    requires !Decide(View(db, key, us), SlidingLog(limit, windowMs), us).allowed
    ensures var c := SlidingLog(limit, windowMs); var later := us + n * 1000000;
            Decide(View(db, key, later), c, later).allowed <==> Decide(View(db, key, us), c, us).retry <= n
  {
    var c, later := SlidingLog(limit, windowMs), us + n * 1000000;
    var d := Decide(View(db, key, us), c, us);
    if d.retry <= n {
      LogRetrySuffices(db, key, limit, windowMs, us, later);
    } else {
      var entries := Entries(View(db, key, us));
      var gone := Rank(entries, NowMs(us) - windowMs);
      var p := |entries| - limit;
      assert gone <= p < |entries|;
      assert NowMs(later) == NowMs(us) + n * 1000;
      assert entries[p].score > NowMs(us) - windowMs by {
        RankIsBelow(entries, NowMs(us) - windowMs, p);
      }
      assert entries[p].score + windowMs - NowMs(us) > n * 1000;
      assert entries[p].score > NowMs(later) - windowMs;
      assert Entries(View(db, key, later)) == entries;
    }
  }

  /** Everything from the rank on is above it. */
  lemma RankIsBelow(entries: seq<Entry>, x: int, i: nat)
    requires ScoresSorted(entries) && Rank(entries, x) <= i < |entries|
    ensures x < entries[i].score
  {
    assert entries[Rank(entries, x)].score <= entries[i].score;
  }

  lemma LogRetryIsExactAfterRuns(db: Redis, calls: seq<Call>, key: string, limit: int, windowMs: int, since: int,
                                 us: int, n: nat)
    requires ValidCalls(calls) && ValidConfig(SlidingLog(limit, windowMs)) && Monotone(calls, since) && key !in db
    requires AlwaysConfigured(calls, key, SlidingLog(limit, windowMs))
    requires !Decide(View(After(db, calls), key, us), SlidingLog(limit, windowMs), us).allowed
    ensures var c := SlidingLog(limit, windowMs); var later := us + n * 1000000; var db' := After(db, calls);
            Decide(View(db', key, later), c, later).allowed <==> Decide(View(db', key, us), c, us).retry <= n
  {
    var all, last := LogStaysTracked(db, calls, key, limit, windowMs, [], since);
    TrackedLogLives(After(db, calls), key, windowMs, all, last);
    LogRetryIsExact(After(db, calls), key, limit, windowMs, us, n);
  }

  // ---------------------------------------------------------------- the counter's target is exact

  lemma PositionBelowTarget(target: real, later: int, windowMs: int)
    requires windowMs > 0 && later as real < target * WindowUs(windowMs) as real
    ensures Index(later, windowMs) as real + Fraction(later, windowMs) < target
  {
    FractionBounds(later, windowMs);
    var size := WindowUs(windowMs) as real;
    var position := Index(later, windowMs) as real + Fraction(later, windowMs);
    assert (Index(later, windowMs) * WindowUs(windowMs)) as real == Index(later, windowMs) as real * size;
    assert position * size == Index(later, windowMs) as real * size + Fraction(later, windowMs) * size;
    ScaledOrder(position, target, size);
  }

  lemma ScaledOrder(a: real, b: real, size: real)
    requires size > 0.0 && a * size < b * size
    ensures a < b
  {
    SignOf(b - a, size);
    assert (b - a) * size == b * size - a * size;
  }

  lemma ScaleStrictly(n: int, a: real, b: real)
    requires n > 0
    ensures a < b ==> n as real * a < n as real * b
  {
  }

  lemma BeforeTarget(w: Window, w': Window, limit: int, i: int, j: int, fraction: real)
    requires limit >= 1 && 0.0 <= fraction < 1.0 && i <= j
    requires w.cur >= 0 && w.prev >= 0 && w.index == i
    requires w' == if j == i then w else if j == i + 1 then Window(j, 0, w.cur) else Window(j, 0, 0)
    requires (w.cur <= limit - 1 && w.prev > 0) || w.cur >= limit
    requires j as real + fraction < Target(w, limit)
    ensures (limit - 1) as real < w'.prev as real * (1.0 - fraction) + w'.cur as real
  {
    var weight := 1.0 - fraction;
    if w.cur <= limit - 1 && w.prev > 0 {
      DivMul((limit - 1 - w.cur) as real, w.prev as real);
      ScaleStrictly(w.prev, (limit - 1 - w.cur) as real / w.prev as real, weight);
    } else {
      DivMul((limit - 1) as real, w.cur as real);
      Positive(w.prev, weight);
      if j == i + 1 {
        ScaleStrictly(w.cur, (limit - 1) as real / w.cur as real, weight);
      }
    }
  }

  /** Before the target moment the estimate is above `limit - 1`. */
  lemma EstimateBeforeTarget(db: Redis, key: string, limit: int, windowMs: int, us: int, later: int)
    requires limit >= 1 && windowMs > 0 && WrittenBefore(db, key, windowMs, us) && us <= later
    requires var w := Shown(db, key, Index(us, windowMs));
             && ((w.cur <= limit - 1 && w.prev > 0) || w.cur >= limit)
             && later as real < Target(w, limit) * WindowUs(windowMs) as real
    ensures (limit - 1) as real < EstimateAt(db, key, windowMs, later)
  {
    var i, j := Index(us, windowMs), Index(later, windowMs);
    IndexGrows(us, later, windowMs);
    EstimateOfShown(db, key, windowMs, later);
    ShownMoves(db, key, windowMs, i, j);
    FractionBounds(later, windowMs);
    var w := Shown(db, key, i);
    PositionBelowTarget(Target(w, limit), later, windowMs);
    BeforeTarget(w, Shown(db, key, j), limit, i, j, Fraction(later, windowMs));
  }

  /** Without consumption, the estimate is down to `limit - 1` exactly from the target moment on. */
  lemma TargetIsExact(db: Redis, key: string, limit: int, windowMs: int, us: int, later: int)
    requires limit >= 1 && windowMs > 0 && WrittenBefore(db, key, windowMs, us) && us <= later
    requires var w := Shown(db, key, Index(us, windowMs)); (w.cur <= limit - 1 && w.prev > 0) || w.cur >= limit
    ensures EstimateAt(db, key, windowMs, later) <= (limit - 1) as real <==>
            Target(Shown(db, key, Index(us, windowMs)), limit) * WindowUs(windowMs) as real <= later as real
  {
    var end := Target(Shown(db, key, Index(us, windowMs)), limit) * WindowUs(windowMs) as real;
    if end <= later as real {
      EstimatePastTarget(db, key, limit, windowMs, us, later);
    } else {
      EstimateBeforeTarget(db, key, limit, windowMs, us, later);
    }
  }

  lemma WaitFalls(target: real, us: int, retry: int, n: nat)
    requires retry == Max(1, Ceil((target - us as real) / MICROS)) && 0 < n < retry
    ensures (us + n * 1000000) as real < target
  {
    var wait := (target - us as real) / MICROS;
    assert n as real < wait;
    assert wait * MICROS == target - us as real;
  }

  /** With fewer whole seconds than answered the estimate is still above `limit - 1`. */
  lemma CounterRetryIsLeast(db: Redis, key: string, limit: int, windowMs: int, us: int, n: nat)
    requires ValidConfig(SlidingCounter(limit, windowMs)) && WrittenBefore(db, key, windowMs, us)
    requires var d := Decide(View(db, key, us), SlidingCounter(limit, windowMs), us); !d.allowed && n < d.retry
    ensures (limit - 1) as real < EstimateAt(db, key, windowMs, us + n * 1000000)
  {
    RefusalAnswers(db, key, limit, windowMs, us);
    AboveUntilTarget(db, key, limit, windowMs, us, Decide(View(db, key, us), SlidingCounter(limit, windowMs), us).retry, n);
  }

  lemma AboveUntilTarget(db: Redis, key: string, limit: int, windowMs: int, us: int, retry: int, n: nat)
    requires limit >= 1 && windowMs > 0 && WrittenBefore(db, key, windowMs, us)
    requires var w := Shown(db, key, Index(us, windowMs));
             && ((w.cur <= limit - 1 && w.prev > 0) || w.cur >= limit)
             && retry == Max(1, Ceil((Target(w, limit) * WindowUs(windowMs) as real - us as real) / MICROS))
    ensures 0 < n < retry ==> (limit - 1) as real < EstimateAt(db, key, windowMs, us + n * 1000000)
  {
    if 0 < n < retry {
      WaitFalls(Target(Shown(db, key, Index(us, windowMs)), limit) * WindowUs(windowMs) as real, us, retry, n);
      EstimateBeforeTarget(db, key, limit, windowMs, us, us + n * 1000000);
    }
  }
}

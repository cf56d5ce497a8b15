/** The sliding-window counter between two consumptions: its estimate falls, and its wait is enough. */
module RateLimitCounter {
  import opened Common
  import opened RateLimit
  import opened RateLimitRuns

  /** What `commit` leaves: non-negative counts, and an expiry after they have lost their weight. */
  ghost predicate CounterOk(e: Stored, windowMs: int) {
    && e.value.Hash? && e.value.window.Some?
    && e.value.window.value.cur >= 0 && e.value.window.value.prev >= 0
    && (e.value.window.value.index + 2) * windowMs <= e.expireAt
  }

  ghost predicate CounterKey(db: Redis, key: string, windowMs: int) {
    key in db ==> CounterOk(db[key], windowMs)
  }

  function Index(us: int, windowMs: int): int
    requires windowMs > 0
  {
    us / WindowUs(windowMs)
  }

  lemma IndexOfMillis(us: int, windowMs: int)
    requires windowMs > 0
    ensures Index(us, windowMs) == NowMs(us) / windowMs
    ensures Index(us, windowMs) * windowMs <= NowMs(us)
  {
    var size := WindowUs(windowMs);
    var i := us / size;
    var j := NowMs(us) / windowMs;
    assert i * size <= us < i * size + size;
    assert j * windowMs <= NowMs(us) < j * windowMs + windowMs;
    assert j * size <= us < j * size + size;
    Between(i, j, size, us);
  }

  lemma MulOrder(a: int, b: int, size: int)
    requires size > 0
    ensures a < b ==> a * size + size <= b * size
  {
    assert a < b ==> (b - a - 1) * size >= 0;
  }

  lemma Between(i: int, j: int, size: int, x: int)
    requires size > 0
    requires i * size <= x < i * size + size && j * size <= x < j * size + size
    ensures i == j
  {
    MulOrder(i, j, size);
    MulOrder(j, i, size);
  }

  lemma IndexGrows(us: int, later: int, windowMs: int)
    requires windowMs > 0 && us <= later
    ensures Index(us, windowMs) <= Index(later, windowMs)
  {
    var size := WindowUs(windowMs);
    MulOrder(later / size, us / size, size);
  }

  /** The counts the kept record shows in window `index`, expired or not. */
  ghost function Shown(db: Redis, key: string, index: int): Window {
    if key in db then Shifted(Some(db[key]), index) else Window(index, 0, 0)
  }

  lemma PastWindow(w: int, i: int, windowMs: int, nowMs: int)
    requires windowMs > 0 && i == nowMs / windowMs && w * windowMs <= nowMs
    ensures w <= i
  {
    MulOrder(i, w, windowMs);
    assert nowMs < i * windowMs + windowMs;
  }

  /** Expiry is invisible: a dropped record would show zero counts anyway. */
  lemma CounterExpiryIsInvisible(db: Redis, key: string, windowMs: int, us: int)
    requires windowMs > 0 && CounterKey(db, key, windowMs)
    ensures Shifted(View(db, key, us), Index(us, windowMs)) == Shown(db, key, Index(us, windowMs))
  {
    if key in db && View(db, key, us).None? {
      IndexOfMillis(us, windowMs);
      PastWindow(db[key].value.window.value.index + 2, Index(us, windowMs), windowMs, NowMs(us));
    }
  }

  /** How the shown counts move from window `i` to a later window `j`. */
  lemma ShownMoves(db: Redis, key: string, windowMs: int, i: int, j: int)
    requires CounterKey(db, key, windowMs) && i <= j
    requires key in db ==> db[key].value.window.value.index <= i
    ensures var w := Shown(db, key, i);
            && w.cur >= 0 && w.prev >= 0 && w.index == i
            && Shown(db, key, j) == if j == i then w else if j == i + 1 then Window(j, 0, w.cur) else Window(j, 0, 0)
  {
  }

  lemma FractionBounds(us: int, windowMs: int)
    requires windowMs > 0
    ensures 0.0 <= Fraction(us, windowMs) < 1.0
    ensures Fraction(us, windowMs) * WindowUs(windowMs) as real ==
            us as real - (Index(us, windowMs) * WindowUs(windowMs)) as real
  {
    var size := WindowUs(windowMs);
    var rest := us - (us / size) * size;
    assert 0 <= rest < size;
    DivMul(rest as real, size as real);
  }

  lemma DivMul(a: real, b: real)
    requires b > 0.0
    ensures (a / b) * b == a
    ensures a >= 0.0 ==> a / b >= 0.0
    ensures a < b ==> a / b < 1.0
  {
    var q := a / b;
    assert q * b == a;
    SignOf(q, b);
    SignOf(1.0 - q, b);
    assert (1.0 - q) * b == b - a;
  }

  lemma SignOf(q: real, b: real)
    requires b > 0.0
    ensures q * b >= 0.0 <==> q >= 0.0
    ensures q * b > 0.0 <==> q > 0.0
  {
  }

  /** The weight left to the previous window. */
  ghost function Weight(us: int, windowMs: int): real
    requires windowMs > 0
  {
    1.0 - Fraction(us, windowMs)
  }

  lemma Scale(n: int, a: real, b: real)
    requires n >= 0
    ensures a <= b ==> n as real * a <= n as real * b
  {
  }

  lemma Positive(n: int, a: real)
    requires n >= 0 && a >= 0.0
    ensures n as real * a >= 0.0
  {
  }

  /** In one window, the estimate loses `prev` per window length: a straight line. */
  lemma FractionGrows(us: int, later: int, windowMs: int)
    requires windowMs > 0 && us <= later && Index(us, windowMs) == Index(later, windowMs)
    ensures Fraction(later, windowMs) - Fraction(us, windowMs) == (later - us) as real / WindowUs(windowMs) as real
    ensures Fraction(us, windowMs) <= Fraction(later, windowMs)
  {
    FractionBounds(us, windowMs);
    FractionBounds(later, windowMs);
    var size := WindowUs(windowMs) as real;
    var d := Fraction(later, windowMs) - Fraction(us, windowMs);
    assert d * size == (later - us) as real;
    DivMul((later - us) as real, size);
    Cancel(d, (later - us) as real / size, size);
  }

  lemma Cancel(a: real, b: real, c: real)
    requires c > 0.0 && a * c == b * c
    ensures a == b
  {
    assert (a * c) / c == a && (b * c) / c == b;
  }

  /** The clock never ran before the window of the last write. */
  ghost predicate WrittenBefore(db: Redis, key: string, windowMs: int, us: int)
    requires windowMs > 0
  {
    && CounterKey(db, key, windowMs)
    && (key in db ==> db[key].value.window.value.index <= Index(us, windowMs))
  }

  ghost function EstimateAt(db: Redis, key: string, windowMs: int, us: int): real
    requires windowMs > 0
  {
    Estimate(View(db, key, us), us, windowMs)
  }

  lemma EstimateOfShown(db: Redis, key: string, windowMs: int, us: int)
    requires windowMs > 0 && CounterKey(db, key, windowMs)
    ensures var w := Shown(db, key, Index(us, windowMs));
            EstimateAt(db, key, windowMs, us) == w.prev as real * Weight(us, windowMs) + w.cur as real
  {
    CounterExpiryIsInvisible(db, key, windowMs, us);
  }

  /** Without consumption the estimate never rises, rollovers and expiry included. */
  lemma EstimateFalls(db: Redis, key: string, windowMs: int, us: int, later: int)
    requires windowMs > 0 && WrittenBefore(db, key, windowMs, us) && us <= later
    ensures 0.0 <= EstimateAt(db, key, windowMs, later) <= EstimateAt(db, key, windowMs, us)
  {
    var i, j := Index(us, windowMs), Index(later, windowMs);
    IndexGrows(us, later, windowMs);
    EstimateOfShown(db, key, windowMs, us);
    EstimateOfShown(db, key, windowMs, later);
    ShownMoves(db, key, windowMs, i, j);
    var w := Shown(db, key, i);
    FractionBounds(us, windowMs);
    FractionBounds(later, windowMs);
    if j == i {
      FractionGrows(us, later, windowMs);
    }
    ShownFalls(w, Shown(db, key, j), Weight(us, windowMs), Weight(later, windowMs));
  }

  lemma ShownFalls(w: Window, w': Window, a: real, b: real)
    requires w.cur >= 0 && w.prev >= 0 && 0.0 <= a && 0.0 <= b <= 1.0
    requires (w' == w && b <= a) || (w'.cur == 0 && (w'.prev == 0 || w'.prev == w.cur))
    ensures 0.0 <= w'.prev as real * b + w'.cur as real <= w.prev as real * a + w.cur as real
  {
    Positive(w.prev, a);
    Positive(w'.prev, b);
    if w' == w && b <= a {
      Scale(w.prev, b, a);
    } else {
      Positive(w'.prev, 1.0 - b);
    }
  }

  /** Nor does it jump: over `d` microseconds it loses at most `d` times its greatest slope. */
  lemma EstimateIsContinuous(db: Redis, key: string, windowMs: int, us: int, later: int)
    requires windowMs > 0 && WrittenBefore(db, key, windowMs, us) && us <= later
    ensures var w := Shown(db, key, Index(us, windowMs));
            EstimateAt(db, key, windowMs, us) - EstimateAt(db, key, windowMs, later) <=
            Max(w.prev, w.cur) as real * ((later - us) as real / WindowUs(windowMs) as real)
  {
    EstimateOfShown(db, key, windowMs, us);
    EstimateOfShown(db, key, windowMs, later);
    ShownLoses(db, key, windowMs, us, later);
  }

  lemma ShownLoses(db: Redis, key: string, windowMs: int, us: int, later: int)
    requires windowMs > 0 && WrittenBefore(db, key, windowMs, us) && us <= later
    ensures var w, w' := Shown(db, key, Index(us, windowMs)), Shown(db, key, Index(later, windowMs));
            w.prev as real * Weight(us, windowMs) + w.cur as real -
            (w'.prev as real * Weight(later, windowMs) + w'.cur as real) <=
            Max(w.prev, w.cur) as real * ((later - us) as real / WindowUs(windowMs) as real)
  {
    var i, j := Index(us, windowMs), Index(later, windowMs);
    IndexGrows(us, later, windowMs);
    ShownMoves(db, key, windowMs, i, j);
    LossOverTime(Shown(db, key, i), Shown(db, key, j), windowMs, us, later);
  }

  lemma LossOverTime(w: Window, w': Window, windowMs: int, us: int, later: int)
    requires windowMs > 0 && us <= later && w.cur >= 0 && w.prev >= 0
    requires var i, j := Index(us, windowMs), Index(later, windowMs);
             i <= j && w' == if j == i then w else if j == i + 1 then Window(j, 0, w.cur) else Window(j, 0, 0)
    ensures w.prev as real * Weight(us, windowMs) + w.cur as real -
            (w'.prev as real * Weight(later, windowMs) + w'.cur as real) <=
            Max(w.prev, w.cur) as real * ((later - us) as real / WindowUs(windowMs) as real)
  {
    var i, j := Index(us, windowMs), Index(later, windowMs);
    var span := (later - us) as real / WindowUs(windowMs) as real;
    FractionBounds(us, windowMs);
    FractionBounds(later, windowMs);
    if j == i {
      FractionGrows(us, later, windowMs);
      LossInWindow(w, Weight(us, windowMs), span);
    } else if j == i + 1 {
      RolloverSpan(us, later, windowMs);
      LossAcrossRollover(w, Weight(us, windowMs), Fraction(later, windowMs));
    } else {
      LongSpan(us, later, windowMs);
      LossOfAll(w, Weight(us, windowMs), span);
    }
  }

  lemma LossOfAll(w: Window, a: real, span: real)
    requires w.cur >= 0 && w.prev >= 0 && 0.0 <= a && a + 1.0 <= span
    ensures w.prev as real * a + w.cur as real <= Max(w.prev, w.cur) as real * span
  {
    var m := Max(w.prev, w.cur);
    ScaleBoth(w.prev, m, a);
    Scale(m, a + 1.0, span);
    assert m as real * (a + 1.0) == m as real * a + m as real;
  }

  /** Past two rollovers at least the rest of one window and a whole one have gone by. */
  lemma LongSpan(us: int, later: int, windowMs: int)
    requires windowMs > 0 && Index(us, windowMs) + 2 <= Index(later, windowMs)
    ensures Weight(us, windowMs) + 1.0 <= (later - us) as real / WindowUs(windowMs) as real
  {
    var size := WindowUs(windowMs);
    FractionBounds(us, windowMs);
    FractionBounds(later, windowMs);
    var i, j := Index(us, windowMs), Index(later, windowMs);
    MulOrder(i + 1, j, size);
    assert (i + 1) * size == i * size + size;
    Positive(size, Fraction(later, windowMs));
    var sum := Weight(us, windowMs) + 1.0;
    var span := (later - us) as real / size as real;
    assert sum * size as real <= (later - us) as real;
    DivMul((later - us) as real, size as real);
    AtLeast(sum, span, size as real);
  }

  lemma AtLeast(sum: real, span: real, size: real)
    requires size > 0.0 && sum * size <= span * size
    ensures sum <= span
  {
    SignOf(sum - span, size);
  }

  lemma LossInWindow(w: Window, a: real, span: real)
    requires span >= 0.0
    ensures w.prev as real * a - w.prev as real * (a - span) <= Max(w.prev, w.cur) as real * span
  {
    ScaleBoth(w.prev, Max(w.prev, w.cur), span);
  }

  lemma LossAcrossRollover(w: Window, a: real, b: real)
    requires a >= 0.0 && b >= 0.0
    ensures w.prev as real * a + w.cur as real - w.cur as real * (1.0 - b) <= Max(w.prev, w.cur) as real * (a + b)
  {
    ScaleBoth(w.prev, Max(w.prev, w.cur), a);
    ScaleBoth(w.cur, Max(w.prev, w.cur), b);
  }

  lemma ScaleBoth(m: int, n: int, x: real)
    requires m <= n && x >= 0.0
    ensures m as real * x <= n as real * x
  {
  }

  /** Across one rollover the elapsed time is the rest of one window plus the start of the next. */
  lemma RolloverSpan(us: int, later: int, windowMs: int)
    requires windowMs > 0 && Index(later, windowMs) == Index(us, windowMs) + 1
    ensures (later - us) as real / WindowUs(windowMs) as real == Weight(us, windowMs) + Fraction(later, windowMs)
  {
    var size := WindowUs(windowMs);
    FractionBounds(us, windowMs);
    FractionBounds(later, windowMs);
    var i := Index(us, windowMs);
    assert (i + 1) * size == i * size + size;
    var sum := Weight(us, windowMs) + Fraction(later, windowMs);
    assert sum * size as real == (later - us) as real;
    DivMul((later - us) as real, size as real);
    Cancel(sum, (later - us) as real / size as real, size as real);
  }

  // ---------------------------------------------------------------- retryAfter

  /** Past the target moment the estimate is at most `limit - 1`. */
  lemma EstimatePastTarget(db: Redis, key: string, limit: int, windowMs: int, us: int, later: int)
    requires limit >= 1 && windowMs > 0 && WrittenBefore(db, key, windowMs, us) && us <= later
    requires var w := Shown(db, key, Index(us, windowMs));
             && ((w.cur <= limit - 1 && w.prev > 0) || w.cur >= limit)
             && Target(w, limit) * WindowUs(windowMs) as real <= later as real
    ensures EstimateAt(db, key, windowMs, later) <= (limit - 1) as real
  {
    var i, j := Index(us, windowMs), Index(later, windowMs);
    IndexGrows(us, later, windowMs);
    EstimateOfShown(db, key, windowMs, later);
    ShownMoves(db, key, windowMs, i, j);
    FractionBounds(later, windowMs);
    var w := Shown(db, key, i);
    TargetBelowPosition(Target(w, limit), later, windowMs);
    PastTarget(w, Shown(db, key, j), limit, i, j, Fraction(later, windowMs));
  }

  lemma AtMostAll(n: int, a: real)
    requires n >= 0 && a <= 1.0
    ensures n as real * a <= n as real
  {
    Scale(n, a, 1.0);
  }

  lemma PastTarget(w: Window, w': Window, limit: int, i: int, j: int, fraction: real)
    requires limit >= 1 && 0.0 <= fraction < 1.0 && i <= j
    requires w.cur >= 0 && w.prev >= 0 && w.index == i
    requires w' == if j == i then w else if j == i + 1 then Window(j, 0, w.cur) else Window(j, 0, 0)
    requires (w.cur <= limit - 1 && w.prev > 0) || w.cur >= limit
    requires Target(w, limit) <= j as real + fraction
    ensures w'.prev as real * (1.0 - fraction) + w'.cur as real <= (limit - 1) as real
  {
    var weight := 1.0 - fraction;
    if w.cur <= limit - 1 && w.prev > 0 {
      if j == i {
        DivMul((limit - 1 - w.cur) as real, w.prev as real);
        Scale(w.prev, weight, (limit - 1 - w.cur) as real / w.prev as real);
      } else if j == i + 1 {
        AtMostAll(w.cur, weight);
      }
    } else {
      DivMul((limit - 1) as real, w.cur as real);
      if j == i + 1 {
        Scale(w.cur, weight, (limit - 1) as real / w.cur as real);
      }
    }
  }

  /** A moment counted in windows, against the window and fraction the clock is at. */
  lemma TargetBelowPosition(target: real, later: int, windowMs: int)
    requires windowMs > 0 && target * WindowUs(windowMs) as real <= later as real
    ensures target <= Index(later, windowMs) as real + Fraction(later, windowMs)
  {
    FractionBounds(later, windowMs);
    var size := WindowUs(windowMs) as real;
    var position := Index(later, windowMs) as real + Fraction(later, windowMs);
    assert (Index(later, windowMs) * WindowUs(windowMs)) as real == Index(later, windowMs) as real * size;
    assert position * size == Index(later, windowMs) as real * size + Fraction(later, windowMs) * size;
    if position < target {
      assert (target - position) * size > 0.0;
    }
  }

  /** Waiting `retry` seconds is always long enough, in both branches and despite expiry. */
  lemma CounterRetrySuffices(db: Redis, key: string, limit: int, windowMs: int, us: int, later: int)
    requires ValidConfig(SlidingCounter(limit, windowMs)) && WrittenBefore(db, key, windowMs, us)
    requires var d := Decide(View(db, key, us), SlidingCounter(limit, windowMs), us);
             !d.allowed && us + d.retry * 1000000 <= later
    ensures Decide(View(db, key, later), SlidingCounter(limit, windowMs), later).allowed
  {
    RefusalAnswers(db, key, limit, windowMs, us);
    var w := Shown(db, key, Index(us, windowMs));
    var retry := Decide(View(db, key, us), SlidingCounter(limit, windowMs), us).retry;
    WaitReaches(Target(w, limit) * WindowUs(windowMs) as real, us, retry, later);
    EstimatePastTarget(db, key, limit, windowMs, us, later);
  }

  /** A refusal answers the time left to the target moment of the counts it saw. */
  lemma RefusalAnswers(db: Redis, key: string, limit: int, windowMs: int, us: int)
    requires ValidConfig(SlidingCounter(limit, windowMs)) && WrittenBefore(db, key, windowMs, us)
    requires !Decide(View(db, key, us), SlidingCounter(limit, windowMs), us).allowed
    ensures var w := Shown(db, key, Index(us, windowMs));
            && ((w.cur <= limit - 1 && w.prev > 0) || w.cur >= limit)
            && Decide(View(db, key, us), SlidingCounter(limit, windowMs), us).retry ==
               Max(1, Ceil((Target(w, limit) * WindowUs(windowMs) as real - us as real) / MICROS))
  {
    var i := Index(us, windowMs);
    CounterExpiryIsInvisible(db, key, windowMs, us);
    EstimateOfShown(db, key, windowMs, us);
    ShownMoves(db, key, windowMs, i, i);
    FractionBounds(us, windowMs);
    var w := Shown(db, key, i);
    assert w.prev == 0 ==> w.cur >= limit;
  }

  lemma WaitReaches(target: real, us: int, retry: int, later: int)
    requires retry == Max(1, Ceil((target - us as real) / MICROS)) && us + retry * 1000000 <= later
    ensures target <= later as real && us <= later
  {
    var wait := (target - us as real) / MICROS;
    assert wait <= retry as real;
    assert wait * MICROS == target - us as real;
  }

  // ---------------------------------------------------------------- over runs

  /** Every call leaves the key in the state the lemmas above start from. */
  lemma CounterCall(db: Redis, call: Call, key: string, limit: int, windowMs: int, since: int)
    requires ValidRules(call.rules) && limit >= 1 && windowMs > 0 && since <= call.us
    requires AlwaysConfigured([call], key, SlidingCounter(limit, windowMs))
    requires WrittenBefore(db, key, windowMs, since)
    ensures WrittenBefore(Exec(db, call), key, windowMs, call.us)
  {
    CallAtKey(db, call, key, SlidingCounter(limit, windowMs));
    IndexGrows(since, call.us, windowMs);
    if Taken(db, call, key) != [] {
      var i := Index(call.us, windowMs);
      CounterExpiryIsInvisible(db, key, windowMs, call.us);
      ShownMoves(db, key, windowMs, i, i);
      IndexOfMillis(call.us, windowMs);
      assert (i + 2) * windowMs == i * windowMs + windowMs * 2;
    }
  }

  lemma {:induction false} CounterRun(db: Redis, calls: seq<Call>, key: string, limit: int, windowMs: int,
                                      since: int, until: int)
    requires ValidCalls(calls) && limit >= 1 && windowMs > 0
    requires Monotone(calls, since) && since <= until && forall i :: 0 <= i < |calls| ==> calls[i].us <= until
    requires AlwaysConfigured(calls, key, SlidingCounter(limit, windowMs))
    requires WrittenBefore(db, key, windowMs, since)
    ensures WrittenBefore(After(db, calls), key, windowMs, until)
    decreases |calls|
  {
    if calls == [] {
      IndexGrows(since, until, windowMs);
    } else {
      TailFacts(calls, since, key, SlidingCounter(limit, windowMs));
      CounterCall(db, calls[0], key, limit, windowMs, since);
      CounterRun(Exec(db, calls[0]), calls[1..], key, limit, windowMs, calls[0].us, until);
    }
  }

  /** So the wait holds after any run, over any mix of rules, that starts without the key. */
  lemma CounterRetrySufficesAfterRuns(db: Redis, calls: seq<Call>, key: string, limit: int, windowMs: int,
                                      since: int, us: int, later: int)
    requires ValidCalls(calls) && ValidConfig(SlidingCounter(limit, windowMs)) && key !in db
    requires Monotone(calls, since) && since <= us && forall i :: 0 <= i < |calls| ==> calls[i].us <= us
    requires AlwaysConfigured(calls, key, SlidingCounter(limit, windowMs))
    requires var d := Decide(View(After(db, calls), key, us), SlidingCounter(limit, windowMs), us);
             !d.allowed && us + d.retry * 1000000 <= later
    ensures Decide(View(After(db, calls), key, later), SlidingCounter(limit, windowMs), later).allowed
  {
    CounterRun(db, calls, key, limit, windowMs, since, us);
    CounterRetrySuffices(After(db, calls), key, limit, windowMs, us, later);
  }
}

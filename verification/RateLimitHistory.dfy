/** What every rule decides, said of the requests it accepted before: the script agrees with these four readings. */
module RateLimitHistory {
  import opened Common
  import opened RateLimit
  import opened RateLimitRuns
  import opened RateLimitCounter
  import opened RateLimitBucket
  import opened RateLimitReply

  // ---------------------------------------------------------------- the four readings of a history

  /** Tokens at `us`: full at first; each request takes one, and time refills them up to the capacity. */
  ghost function TokensLeft(h: seq<int>, max: real, rate: real, us: int): real
    decreases |h|
  {
    if h == [] then max
    else
      var last := h[|h| - 1];
      var grown := TokensLeft(h[..|h| - 1], max, rate, last) - 1.0 + (us - last) as real / 1000000.0 * rate;
      if grown < max then grown else max
  }

  /** A fixed window opens with a request that finds none open, and stays open for `windowMs` milliseconds after it. */
  datatype Life = Life(start: int, count: nat)

  ghost function LastLife(h: seq<int>, windowMs: int): Option<Life>
    decreases |h|
  {
    if h == [] then None
    else
      var at := h[|h| - 1] / 1000;
      match LastLife(h[..|h| - 1], windowMs)
      case None => Some(Life(at, 1))
      case Some(life) => if at <= life.start + windowMs then Some(Life(life.start, life.count + 1)) else Some(Life(at, 1))
  }

  /** The requests of the window that is open at `us`. */
  ghost function InLife(h: seq<int>, windowMs: int, us: int): nat {
    match LastLife(h, windowMs)
    case None => 0
    case Some(life) => if us / 1000 <= life.start + windowMs then life.count else 0
  }

  /** The requests of the last `windowMs` milliseconds. */
  ghost function InLog(h: seq<int>, windowMs: int, us: int): nat {
    CountIn(Millis(h), us / 1000 - windowMs, us / 1000)
  }

  /** The requests of the `i`-th window since the clock began. */
  ghost function InWindow(h: seq<int>, windowMs: int, i: int): nat
    requires windowMs > 0
    decreases |h|
  {
    if h == [] then 0
    else InWindow(h[..|h| - 1], windowMs, i) + if h[|h| - 1] / (windowMs * 1000) == i then 1 else 0
  }

  /** Those of the current window, and those of the one before for the part of it that the sliding window still covers. */
  ghost function Weighted(h: seq<int>, windowMs: int, us: int): real
    requires windowMs > 0
  {
    var size := windowMs * 1000;
    var i := us / size;
    InWindow(h, windowMs, i) as real + InWindow(h, windowMs, i - 1) as real * (1.0 - (us - i * size) as real / size as real)
  }

  /** One more request fits. */
  ghost predicate Admits(c: Config, h: seq<int>, us: int)
    requires ValidConfig(c)
  {
    match c
    case TokenBucket(max, rate) => 1.0 <= TokensLeft(h, max, rate, us)
    case FixedWindow(limit, windowMs) => InLife(h, windowMs, us) < limit
    case SlidingLog(limit, windowMs) => InLog(h, windowMs, us) < limit
    case SlidingCounter(limit, windowMs) => Weighted(h, windowMs, us) + 1.0 <= limit as real + 0.000000001
  }

  ghost predicate AllAdmitted(c: Config, h: seq<int>)
    requires ValidConfig(c)
  {
    forall k :: 0 <= k < |h| ==> Admits(c, h[..k], h[k])
  }

  // ---------------------------------------------------------------- what is stored

  ghost predicate Stores(e: Stored, c: Config, h: seq<int>)
    requires ValidConfig(c) && h != []
  {
    var last := h[|h| - 1];
    match c
    case TokenBucket(max, rate) =>
      && BucketOk(e, max, rate, last)
      && e.value.bucket == Some(Bucket(TokensLeft(h[..|h| - 1], max, rate, last) - 1.0, last))
    case FixedWindow(limit, windowMs) =>
      var life := LastLife(h, windowMs).value;
      e == Stored(Text(life.count), life.start + windowMs)
    case SlidingLog(limit, windowMs) => LogStored(e, windowMs, Millis(h))
    case SlidingCounter(limit, windowMs) =>
      && CounterOk(e, windowMs)
      && (var w := e.value.window.value;
          && w.cur == InWindow(h, windowMs, w.index) && w.prev == InWindow(h, windowMs, w.index - 1)
          && w.index == last / (windowMs * 1000))
  }

  /** The key holds what the accepted requests `h`, the last no later than `us`, have left. */
  ghost predicate Tracks(db: Redis, key: string, c: Config, h: seq<int>, us: int)
    requires ValidConfig(c)
  {
    && Sorted(h) && (forall i :: 0 <= i < |h| ==> h[i] <= us)
    && (key in db <==> h != []) && (h != [] ==> Stores(db[key], c, h))
  }

  /** What is decided, and what is left to say, about a history. */
  ghost predicate Agrees(d: Eval, c: Config, h: seq<int>, us: int)
    requires ValidConfig(c)
  {
    && (d.allowed <==> Admits(c, h, us))
    && match c
       case TokenBucket(max, rate) => d.available == TokensLeft(h, max, rate, us).Floor && d.limit == max.Floor
       case FixedWindow(limit, windowMs) =>
         d.available == (if InLife(h, windowMs, us) < limit then limit - InLife(h, windowMs, us) else 0) && d.limit == limit
       case SlidingLog(limit, windowMs) =>
         d.available == (if InLog(h, windowMs, us) < limit then limit - InLog(h, windowMs, us) else 0) && d.limit == limit
       case SlidingCounter(limit, windowMs) =>
         var left := limit as real - Weighted(h, windowMs, us) + 0.000000001;
         d.available == (if 0.0 <= left then left.Floor else 0) && d.limit == limit
  }

  lemma LastLifeExists(h: seq<int>, windowMs: int)
    ensures LastLife(h, windowMs).Some? <==> h != []
    ensures h != [] ==> LastLife(h, windowMs).value.count >= 1
  {
  }

  // ---------------------------------------------------------------- token bucket

  lemma BucketHolds(db: Redis, key: string, max: real, rate: real, h: seq<int>, us: int)
    requires ValidConfig(TokenBucket(max, rate)) && Tracks(db, key, TokenBucket(max, rate), h, us)
    ensures TokensAt(db, key, max, rate, us) == TokensLeft(h, max, rate, us)
  {
    assert BucketKey(db, key, max, rate, us);
    ExpiryIsInvisible(db, key, max, rate, us);
    if h != [] {
      var last := h[|h| - 1];
      KeptIsLeft(db[key].value.bucket.value, h, TokensLeft(h[..|h| - 1], max, rate, last), last, max, rate, us);
    }
  }

  lemma KeptIsLeft(b: Bucket, h: seq<int>, before: real, last: int, max: real, rate: real, us: int)
    requires h != [] && last == h[|h| - 1] <= us && before == TokensLeft(h[..|h| - 1], max, rate, last)
    requires b == Bucket(before - 1.0, last)
    ensures Refilled(b, max, rate, us) == TokensLeft(h, max, rate, us)
  {
    RefilledIs(b, max, rate, us);
  }

  lemma BucketAgrees(db: Redis, key: string, max: real, rate: real, h: seq<int>, us: int)
    requires ValidConfig(TokenBucket(max, rate)) && Tracks(db, key, TokenBucket(max, rate), h, us)
    ensures TokensAt(db, key, max, rate, us) == TokensLeft(h, max, rate, us)
    ensures Agrees(Decide(View(db, key, us), TokenBucket(max, rate), us), TokenBucket(max, rate), h, us)
  {
    BucketHolds(db, key, max, rate, h, us);
  }

  lemma RefilledIs(b: Bucket, max: real, rate: real, us: int)
    requires b.ts <= us
    ensures var grown := b.tokens + (us - b.ts) as real / 1000000.0 * rate;
            Refilled(b, max, rate, us) == if grown < max then grown else max
  {
    assert Max(0, us - b.ts) == us - b.ts;
  }

  lemma BucketTracks(db: Redis, db': Redis, key: string, max: real, rate: real, h: seq<int>, us: int, id: string)
    requires ValidConfig(TokenBucket(max, rate)) && Tracks(db, key, TokenBucket(max, rate), h, us)
    requires Admits(TokenBucket(max, rate), h, us)
    requires key in db' && db'[key] == Consume(View(db, key, us), TokenBucket(max, rate), us, id)
    ensures Tracks(db', key, TokenBucket(max, rate), h + [us], us)
  {
    BucketAgrees(db, key, max, rate, h, us);
    assert BucketKey(db, key, max, rate, us);
    ExpiryIsInvisible(db, key, max, rate, us);
    ConsumedBucket(View(db, key, us), db'[key], max, rate, us, id);
    assert (h + [us])[..|h|] == h;
  }

  // ---------------------------------------------------------------- fixed window

  lemma FixedAgrees(db: Redis, key: string, limit: int, windowMs: int, h: seq<int>, us: int)
    requires ValidConfig(FixedWindow(limit, windowMs)) && Tracks(db, key, FixedWindow(limit, windowMs), h, us)
    ensures Agrees(Decide(View(db, key, us), FixedWindow(limit, windowMs), us), FixedWindow(limit, windowMs), h, us)
  {
    LastLifeExists(h, windowMs);
  }

  lemma FixedTracks(db: Redis, db': Redis, key: string, limit: int, windowMs: int, h: seq<int>, us: int, id: string)
    requires ValidConfig(FixedWindow(limit, windowMs)) && Tracks(db, key, FixedWindow(limit, windowMs), h, us)
    requires key in db' && db'[key] == Consume(View(db, key, us), FixedWindow(limit, windowMs), us, id)
    ensures Tracks(db', key, FixedWindow(limit, windowMs), h + [us], us)
  {
    LastLifeExists(h, windowMs);
    assert (h + [us])[..|h|] == h;
  }

  // ---------------------------------------------------------------- sliding-window log

  lemma {:induction false} CountNone(times: seq<int>, lo: int, hi: int)
    requires forall i :: 0 <= i < |times| ==> times[i] <= lo
    ensures CountIn(times, lo, hi) == 0
  {
    if times != [] {
      CountNone(times[..|times| - 1], lo, hi);
    }
  }

  lemma {:induction false} CountFrom(times: seq<int>, lo: int, hi: int, kept: nat)
    requires kept <= |times|
    requires forall i :: 0 <= i < kept ==> times[i] <= lo
    requires forall i :: kept <= i < |times| ==> lo < times[i] <= hi
    ensures CountIn(times, lo, hi) == |times| - kept
  {
    if kept == |times| {
      CountNone(times, lo, hi);
    } else {
      CountFrom(times[..|times| - 1], lo, hi, kept);
    }
  }

  lemma LogTracksMillis(db: Redis, key: string, limit: int, windowMs: int, h: seq<int>, us: int)
    requires ValidConfig(SlidingLog(limit, windowMs)) && Tracks(db, key, SlidingLog(limit, windowMs), h, us)
    ensures LogTracks(db, key, windowMs, Millis(h), us)
  {
    var millis := Millis(h);
    forall i, j | 0 <= i <= j < |millis|
      ensures millis[i] <= millis[j] <= NowMs(us)
    {
      assert h[i] <= h[j] <= us;
    }
  }

  /** The entries the script counts are the requests of the last window. */
  lemma TailIsCounted(db: Redis, key: string, limit: int, windowMs: int, h: seq<int>, us: int)
    requires ValidConfig(SlidingLog(limit, windowMs)) && Tracks(db, key, SlidingLog(limit, windowMs), h, us)
    ensures |Tail(View(db, key, us), windowMs, us)| == InLog(h, windowMs, us)
  {
    var millis, now := Millis(h), NowMs(us);
    LogTracksMillis(db, key, limit, windowMs, h, us);
    var kept := LogSeen(db, key, windowMs, millis, us, us);
    var tail := Tail(View(db, key, us), windowMs, us);
    TrackedIsSorted(db, key, windowMs, millis, us, us);
    CountedIsTail(Entries(View(db, key, us)), millis, kept, now - windowMs, now, tail);
  }

  lemma CountedIsTail(entries: seq<Entry>, millis: seq<int>, kept: nat, lo: int, hi: int, tail: seq<Entry>)
    requires ScoresSorted(entries) && tail == entries[Rank(entries, lo)..] && |millis| == kept + |tail|
    requires forall i :: 0 <= i < kept ==> millis[i] <= lo
    requires forall i :: 0 <= i < |tail| ==> tail[i].score == millis[kept + i]
    requires forall i :: 0 <= i < |millis| ==> millis[i] <= hi
    ensures CountIn(millis, lo, hi) == |tail|
  {
    forall i | kept <= i < |millis|
      ensures lo < millis[i] <= hi
    {
      assert tail[i - kept].score == millis[i];
      RankIsBelow(entries, lo, Rank(entries, lo) + (i - kept));
    }
    CountFrom(millis, lo, hi, kept);
  }

  lemma LogAgrees(db: Redis, key: string, limit: int, windowMs: int, h: seq<int>, us: int)
    requires ValidConfig(SlidingLog(limit, windowMs)) && Tracks(db, key, SlidingLog(limit, windowMs), h, us)
    ensures Agrees(Decide(View(db, key, us), SlidingLog(limit, windowMs), us), SlidingLog(limit, windowMs), h, us)
  {
    TailIsCounted(db, key, limit, windowMs, h, us);
  }

  lemma LogTracksMore(db: Redis, db': Redis, key: string, limit: int, windowMs: int, h: seq<int>, us: int, id: string)
    requires ValidConfig(SlidingLog(limit, windowMs)) && Tracks(db, key, SlidingLog(limit, windowMs), h, us)
    requires key in db' && db'[key] == Consume(View(db, key, us), SlidingLog(limit, windowMs), us, id)
    ensures Tracks(db', key, SlidingLog(limit, windowMs), h + [us], us)
  {
    LogTracksMillis(db, key, limit, windowMs, h, us);
    ConsumedLog(View(db, key, us), limit, windowMs, us, id);
    SortedWithNext(h, us);
    LogStoresMore(db, db'[key], key, windowMs, Millis(h), us, id, Tail(View(db, key, us), windowMs, us));
    assert Millis(h + [us]) == Millis(h) + [NowMs(us)];
  }

  lemma SortedWithNext(h: seq<int>, us: int)
    requires Sorted(h) && forall i :: 0 <= i < |h| ==> h[i] <= us
    ensures Sorted(h + [us]) && forall i :: 0 <= i < |h + [us]| ==> (h + [us])[i] <= us
  {
  }

  lemma ConsumedLog(e: Option<Stored>, limit: int, windowMs: int, us: int, id: string)
    requires ValidConfig(SlidingLog(limit, windowMs))
    ensures Consume(e, SlidingLog(limit, windowMs), us, id) ==
            Stored(SortedSet(Tail(e, windowMs, us) + [Entry(NowMs(us), id)]), NowMs(us) + windowMs + 1000)
  {
  }

  lemma LogStoresMore(db: Redis, e: Stored, key: string, windowMs: int, millis: seq<int>, us: int, id: string, tail: seq<Entry>)
    requires windowMs > 0 && LogTracks(db, key, windowMs, millis, us) && tail == Tail(View(db, key, us), windowMs, us)
    requires e == Stored(SortedSet(tail + [Entry(NowMs(us), id)]), NowMs(us) + windowMs + 1000)
    ensures LogStored(e, windowMs, millis + [NowMs(us)])
  {
    var kept := LogSeen(db, key, windowMs, millis, us, us);
    AppendStored(millis, kept, tail, windowMs, NowMs(us), id);
  }

  // ---------------------------------------------------------------- sliding-window counter

  lemma {:induction false} NoneLater(h: seq<int>, windowMs: int, i: int)
    requires windowMs > 0 && forall k :: 0 <= k < |h| ==> h[k] / (windowMs * 1000) < i
    ensures InWindow(h, windowMs, i) == 0
  {
    if h != [] {
      NoneLater(h[..|h| - 1], windowMs, i);
    }
  }

  /** The counts the script sees are those of the current window and the one before. */
  lemma ShownIsCounted(db: Redis, key: string, limit: int, windowMs: int, h: seq<int>, us: int)
    requires ValidConfig(SlidingCounter(limit, windowMs)) && Tracks(db, key, SlidingCounter(limit, windowMs), h, us)
    ensures CounterKey(db, key, windowMs)
    ensures var i := us / (windowMs * 1000);
            Shown(db, key, i) == Window(i, InWindow(h, windowMs, i), InWindow(h, windowMs, i - 1))
  {
    var i := Index(us, windowMs);
    if h != [] {
      var last := h[|h| - 1];
      IndexGrows(last, us, windowMs);
      forall k | 0 <= k < |h|
        ensures h[k] / (windowMs * 1000) <= last / (windowMs * 1000)
      {
        IndexGrows(h[k], last, windowMs);
      }
      if Index(last, windowMs) < i {
        NoneLater(h, windowMs, i);
      }
      if Index(last, windowMs) < i - 1 {
        NoneLater(h, windowMs, i - 1);
      }
    }
  }

  lemma CounterAgrees(db: Redis, key: string, limit: int, windowMs: int, h: seq<int>, us: int)
    requires ValidConfig(SlidingCounter(limit, windowMs)) && Tracks(db, key, SlidingCounter(limit, windowMs), h, us)
    ensures Agrees(Decide(View(db, key, us), SlidingCounter(limit, windowMs), us), SlidingCounter(limit, windowMs), h, us)
  {
    ShownIsCounted(db, key, limit, windowMs, h, us);
    CounterExpiryIsInvisible(db, key, windowMs, us);
    EstimateIsWeighted(View(db, key, us), windowMs, h, us);
  }

  lemma EstimateIsWeighted(e: Option<Stored>, windowMs: int, h: seq<int>, us: int)
    requires windowMs > 0
    requires var i := us / (windowMs * 1000);
             Shifted(e, i) == Window(i, InWindow(h, windowMs, i), InWindow(h, windowMs, i - 1))
    ensures Estimate(e, us, windowMs) == Weighted(h, windowMs, us)
  {
  }

  lemma CounterTracks(db: Redis, db': Redis, key: string, limit: int, windowMs: int, h: seq<int>, us: int, id: string)
    requires ValidConfig(SlidingCounter(limit, windowMs)) && Tracks(db, key, SlidingCounter(limit, windowMs), h, us)
    requires key in db' && db'[key] == Consume(View(db, key, us), SlidingCounter(limit, windowMs), us, id)
    ensures Tracks(db', key, SlidingCounter(limit, windowMs), h + [us], us)
  {
    var i := Index(us, windowMs);
    ShownIsCounted(db, key, limit, windowMs, h, us);
    CounterExpiryIsInvisible(db, key, windowMs, us);
    IndexOfMillis(us, windowMs);
    assert (i + 2) * windowMs == i * windowMs + windowMs * 2;
    assert (h + [us])[..|h|] == h;
    assert InWindow(h + [us], windowMs, i) == InWindow(h, windowMs, i) + 1;
    assert InWindow(h + [us], windowMs, i - 1) == InWindow(h, windowMs, i - 1);
  }

  // ---------------------------------------------------------------- any rule, any run

  lemma RuleAgrees(db: Redis, key: string, c: Config, h: seq<int>, us: int)
    requires ValidConfig(c) && Tracks(db, key, c, h, us)
    ensures Agrees(Decide(View(db, key, us), c, us), c, h, us)
  {
    match c
    case TokenBucket(max, rate) => BucketAgrees(db, key, max, rate, h, us);
    case FixedWindow(limit, windowMs) => FixedAgrees(db, key, limit, windowMs, h, us);
    case SlidingLog(limit, windowMs) => LogAgrees(db, key, limit, windowMs, h, us);
    case SlidingCounter(limit, windowMs) => CounterAgrees(db, key, limit, windowMs, h, us);
  }

  lemma RuleTracks(db: Redis, db': Redis, key: string, c: Config, h: seq<int>, us: int, id: string)
    requires ValidConfig(c) && Tracks(db, key, c, h, us) && Admits(c, h, us)
    requires key in db' && db'[key] == Consume(View(db, key, us), c, us, id)
    ensures Tracks(db', key, c, h + [us], us)
  {
    match c
    case TokenBucket(max, rate) => BucketTracks(db, db', key, max, rate, h, us, id);
    case FixedWindow(limit, windowMs) => FixedTracks(db, db', key, limit, windowMs, h, us, id);
    case SlidingLog(limit, windowMs) => LogTracksMore(db, db', key, limit, windowMs, h, us, id);
    case SlidingCounter(limit, windowMs) => CounterTracks(db, db', key, limit, windowMs, h, us, id);
  }

  lemma TracksLater(db: Redis, db': Redis, key: string, c: Config, h: seq<int>, us: int, later: int)
    requires ValidConfig(c) && Tracks(db, key, c, h, us) && us <= later
    requires (key in db' <==> key in db) && (key in db ==> db'[key] == db[key])
    ensures Tracks(db', key, c, h, later)
  {
  }

  lemma CallTracks(db: Redis, call: Call, key: string, c: Config, h: seq<int>, since: int)
    requires ValidRules(call.rules) && ValidConfig(c) && AlwaysConfigured([call], key, c) && since <= call.us
    requires Tracks(db, key, c, h, since) && AllAdmitted(c, h)
    ensures Tracks(Exec(db, call), key, c, h + Taken(db, call, key), call.us)
    ensures AllAdmitted(c, h + Taken(db, call, key))
  {
    CallAtKey(db, call, key, c);
    TracksLater(db, db, key, c, h, since, call.us);
    if Taken(db, call, key) == [] {
      assert h + [] == h;
      TracksLater(db, Exec(db, call), key, c, h, call.us, call.us);
    } else {
      RuleAgrees(db, key, c, h, call.us);
      RuleTracks(db, Exec(db, call), key, c, h, call.us, call.id);
      OneMoreAdmitted(c, h, call.us);
    }
  }

  lemma OneMoreAdmitted(c: Config, h: seq<int>, us: int)
    requires ValidConfig(c) && AllAdmitted(c, h) && Admits(c, h, us)
    ensures AllAdmitted(c, h + [us])
  {
    forall k | 0 <= k < |h + [us]|
      ensures Admits(c, (h + [us])[..k], (h + [us])[k])
    {
      assert (h + [us])[..k] == h[..k];
      assert k == |h| ==> h[..k] == h;
    }
  }

  ghost predicate NoneAfter(calls: seq<Call>, since: int, until: int) {
    since <= until && forall i :: 0 <= i < |calls| ==> calls[i].us <= until
  }

  lemma NoneAfterTail(calls: seq<Call>, since: int, until: int)
    requires calls != [] && Monotone(calls, since) && NoneAfter(calls, since, until)
    ensures since <= calls[0].us && NoneAfter(calls[1..], calls[0].us, until)
  {
  }

  lemma {:induction false} RunTracks(db: Redis, calls: seq<Call>, key: string, c: Config, h: seq<int>, since: int, until: int)
    requires ValidCalls(calls) && ValidConfig(c) && AlwaysConfigured(calls, key, c)
    requires Monotone(calls, since) && NoneAfter(calls, since, until)
    requires Tracks(db, key, c, h, since) && AllAdmitted(c, h)
    ensures Tracks(After(db, calls), key, c, h + Accepted(db, calls, key), until)
    ensures AllAdmitted(c, h + Accepted(db, calls, key))
    decreases |calls|
  {
    if calls == [] {
      assert h + [] == h;
      TracksLater(db, db, key, c, h, since, until);
    } else {
      FirstCallTracks(db, calls, key, c, h, since, until);
      RunTracks(Exec(db, calls[0]), calls[1..], key, c, h + Taken(db, calls[0], key), calls[0].us, until);
      AcceptedInTurn(db, calls, key, h);
    }
  }

  lemma FirstCallTracks(db: Redis, calls: seq<Call>, key: string, c: Config, h: seq<int>, since: int, until: int)
    requires calls != [] && ValidCalls(calls) && ValidConfig(c) && AlwaysConfigured(calls, key, c)
    requires Monotone(calls, since) && NoneAfter(calls, since, until)
    requires Tracks(db, key, c, h, since) && AllAdmitted(c, h)
    ensures AlwaysConfigured(calls[1..], key, c) && Monotone(calls[1..], calls[0].us)
    ensures NoneAfter(calls[1..], calls[0].us, until)
    ensures Tracks(Exec(db, calls[0]), key, c, h + Taken(db, calls[0], key), calls[0].us)
    ensures AllAdmitted(c, h + Taken(db, calls[0], key))
  {
    TailFacts(calls, since, key, c);
    NoneAfterTail(calls, since, until);
    CallTracks(db, calls[0], key, c, h, since);
  }

  lemma AcceptedInTurn(db: Redis, calls: seq<Call>, key: string, h: seq<int>)
    requires calls != [] && ValidCalls(calls)
    ensures After(db, calls) == After(Exec(db, calls[0]), calls[1..])
    ensures h + Accepted(db, calls, key) == h + Taken(db, calls[0], key) + Accepted(Exec(db, calls[0]), calls[1..], key)
  {
    Regrouped(h, Taken(db, calls[0], key), Accepted(Exec(db, calls[0]), calls[1..], key), Accepted(db, calls, key));
  }

  lemma Regrouped(h: seq<int>, a: seq<int>, b: seq<int>, both: seq<int>)
    requires both == a + b
    ensures h + both == h + a + b
  {
  }

  /**
   After any run, over any mix of rules, a rule decides as its reading of the accepted requests does, and says how many
   more that leaves; and every request accepted so far was one that the reading admits.
   */
  lemma RunDecidesByHistory(db: Redis, calls: seq<Call>, key: string, c: Config, since: int, us: int)
    requires ValidCalls(calls) && ValidConfig(c) && AlwaysConfigured(calls, key, c) && key !in db
    requires Monotone(calls, since) && NoneAfter(calls, since, us)
    ensures Agrees(Decide(View(After(db, calls), key, us), c, us), c, Accepted(db, calls, key), us)
    ensures Sorted(Accepted(db, calls, key)) && AllAdmitted(c, Accepted(db, calls, key))
  {
    RunTracks(db, calls, key, c, [], since, us);
    assert [] + Accepted(db, calls, key) == Accepted(db, calls, key);
    RuleAgrees(After(db, calls), key, c, Accepted(db, calls, key), us);
  }

  /** With nothing accepted, the limit is what is left: that many requests pass at once, and no more. */
  lemma FreshKeyAllowsTheLimit(c: Config, us: int, ids: seq<string>)
    requires ValidConfig(c)
    ensures var limit := match c case TokenBucket(max, _) => max.Floor case FixedWindow(limit, _) => limit
                                 case SlidingLog(limit, _) => limit case SlidingCounter(limit, _) => limit;
            && Decide(None, c, us).available == limit
            && (|ids| <= limit ==> (Decide(Burst(None, c, us, ids), c, us).allowed <==> |ids| < limit))
  {
    RuleAgrees(map[], "", c, [], us);
    if c.SlidingCounter? {
      assert Weighted([], c.windowMs, us) == 0.0;
    }
    if |ids| <= Decide(None, c, us).available {
      AvailableIsExact(None, c, us, ids);
    }
  }

  // ---------------------------------------------------------------- what the readings bound

  lemma AdmittedFits(h: seq<int>, limit: int, windowMs: int, us: int)
    requires ValidConfig(SlidingCounter(limit, windowMs)) && Admits(SlidingCounter(limit, windowMs), h, us)
    ensures InWindow(h, windowMs, us / (windowMs * 1000)) + 1 <= limit
  {
    var i := us / (windowMs * 1000);
    FractionBounds(us, windowMs);
    Positive(InWindow(h, windowMs, i - 1), 1.0 - Fraction(us, windowMs));
  }

  /** The counter lets at most `limit` requests into one window since the clock began... */
  lemma {:induction false} WindowHoldsTheLimit(h: seq<int>, limit: int, windowMs: int, i: int)
    requires ValidConfig(SlidingCounter(limit, windowMs)) && AllAdmitted(SlidingCounter(limit, windowMs), h)
    ensures InWindow(h, windowMs, i) <= limit
  {
    if h != [] {
      var n := |h| - 1;
      AdmittedButLast(SlidingCounter(limit, windowMs), h);
      WindowHoldsTheLimit(h[..n], limit, windowMs, i);
      AdmittedFits(h[..n], limit, windowMs, h[n]);
    }
  }

  lemma AdmittedButLast(c: Config, h: seq<int>)
    requires ValidConfig(c) && AllAdmitted(c, h) && h != []
    ensures AllAdmitted(c, h[..|h| - 1]) && Admits(c, h[..|h| - 1], h[|h| - 1])
  {
    var before := h[..|h| - 1];
    forall k | 0 <= k < |before|
      ensures Admits(c, before[..k], before[k])
    {
      assert before[..k] == h[..k] && before[k] == h[k];
    }
  }

  /** ... and its estimate never goes above the limit. */
  lemma EstimateStaysWithinTheLimit(h: seq<int>, limit: int, windowMs: int, us: int)
    requires ValidConfig(SlidingCounter(limit, windowMs)) && Admits(SlidingCounter(limit, windowMs), h, us)
    ensures Weighted(h + [us], windowMs, us) <= limit as real + 0.000000001
  {
    assert (h + [us])[..|h|] == h;
  }

  /** A fixed window lets in at most `limit` requests while it is open. */
  lemma {:induction false} LifeHoldsTheLimit(h: seq<int>, limit: int, windowMs: int)
    requires ValidConfig(FixedWindow(limit, windowMs)) && AllAdmitted(FixedWindow(limit, windowMs), h)
    ensures h != [] ==> 1 <= LastLife(h, windowMs).value.count <= limit
  {
    if h != [] {
      AdmittedButLast(FixedWindow(limit, windowMs), h);
      LifeHoldsTheLimit(h[..|h| - 1], limit, windowMs);
      LastLifeExists(h[..|h| - 1], windowMs);
    }
  }

  /** The last window opened with the first of its requests, and after the one before it had closed. */
  lemma {:induction false} LifeBegins(h: seq<int>, windowMs: int) returns (first: nat)
    requires Sorted(h) && h != [] && windowMs > 0
    ensures first + LastLife(h, windowMs).value.count == |h|
    ensures first < |h| && h[first] / 1000 == LastLife(h, windowMs).value.start
    ensures 0 < first ==> LastLife(h[..first], windowMs).value.start + windowMs < LastLife(h, windowMs).value.start
  {
    var n := |h| - 1;
    LastLifeExists(h[..n], windowMs);
    if n == 0 {
      return 0;
    }
    var life := LastLife(h[..n], windowMs).value;
    if h[n] / 1000 <= life.start + windowMs {
      first := LifeBegins(h[..n], windowMs);
      assert h[..n][..first] == h[..first];
    } else {
      first := n;
    }
  }

  lemma TwoWindowsApart(h: seq<int>, limit: int, windowMs: int, i: nat, j: nat)
    requires ValidConfig(FixedWindow(limit, windowMs)) && AllAdmitted(FixedWindow(limit, windowMs), h) && Sorted(h)
    requires i + 2 * limit <= j < |h|
    ensures h[i] / 1000 + windowMs <= h[j] / 1000
  {
    var b := OpenedAt(h, limit, windowMs, j + 1);
    var a := OpenedAt(h, limit, windowMs, b);
    assert h[i] <= h[a] && h[b] <= h[j];
  }

  /** Where the window that is open after `n` requests began: at most `limit` before, and after any earlier one had closed. */
  lemma OpenedAt(h: seq<int>, limit: int, windowMs: int, n: nat) returns (first: nat)
    requires ValidConfig(FixedWindow(limit, windowMs)) && AllAdmitted(FixedWindow(limit, windowMs), h) && Sorted(h)
    requires 0 < n <= |h|
    ensures first < n <= first + limit && h[first] / 1000 == LastLife(h[..n], windowMs).value.start
    ensures 0 < first ==> LastLife(h[..first], windowMs).value.start + windowMs < h[first] / 1000
  {
    AdmittedSoFar(FixedWindow(limit, windowMs), h, n);
    LifeHoldsTheLimit(h[..n], limit, windowMs);
    first := LifeBegins(h[..n], windowMs);
    assert h[..n][..first] == h[..first] && h[..n][first] == h[first];
  }

  /** Of `2 * limit + 1` requests in a row, the last comes more than a window after the first. */
  lemma FixedIsSpaced(h: seq<int>, limit: int, windowMs: int)
    requires ValidConfig(FixedWindow(limit, windowMs)) && AllAdmitted(FixedWindow(limit, windowMs), h) && Sorted(h)
    ensures Sorted(Millis(h)) && Spaced(Millis(h), 2 * limit, windowMs)
  {
    forall i, j | 0 <= i < j < |h| && 2 * limit <= j - i
      ensures windowMs <= Millis(h)[j] - Millis(h)[i]
    {
      TwoWindowsApart(h, limit, windowMs, i, j);
    }
    forall i, j | 0 <= i <= j < |h|
      ensures Millis(h)[i] <= Millis(h)[j]
    {
      assert h[i] <= h[j];
    }
  }

  lemma AdmittedSoFar(c: Config, h: seq<int>, n: nat)
    requires ValidConfig(c) && AllAdmitted(c, h) && n <= |h|
    ensures AllAdmitted(c, h[..n])
  {
    forall k | 0 <= k < n
      ensures Admits(c, h[..n][..k], h[..n][k])
    {
      assert h[..n][..k] == h[..k] && h[..n][k] == h[k];
    }
  }

  /** Over any run a fixed window accepts at most twice its limit in any stretch of its length. */
  lemma FixedNeverExceedsTwice(db: Redis, calls: seq<Call>, key: string, limit: int, windowMs: int, since: int, us: int, lo: int)
    requires ValidCalls(calls) && ValidConfig(FixedWindow(limit, windowMs)) && key !in db
    requires AlwaysConfigured(calls, key, FixedWindow(limit, windowMs))
    requires Monotone(calls, since) && NoneAfter(calls, since, us)
    ensures CountIn(Millis(Accepted(db, calls, key)), lo, lo + windowMs) <= 2 * limit
  {
    RunDecidesByHistory(db, calls, key, FixedWindow(limit, windowMs), since, us);
    FixedIsSpaced(Accepted(db, calls, key), limit, windowMs);
    SpacedMeansLimited(Millis(Accepted(db, calls, key)), 2 * limit, windowMs, lo);
  }

  /** Over any run the counter accepts at most `limit` requests in one window since the clock began. */
  lemma CounterNeverExceedsItsLimit(db: Redis, calls: seq<Call>, key: string, limit: int, windowMs: int, since: int, us: int,
                                    i: int)
    requires ValidCalls(calls) && ValidConfig(SlidingCounter(limit, windowMs)) && key !in db
    requires AlwaysConfigured(calls, key, SlidingCounter(limit, windowMs))
    requires Monotone(calls, since) && NoneAfter(calls, since, us)
    ensures InWindow(Accepted(db, calls, key), windowMs, i) <= limit
  {
    RunDecidesByHistory(db, calls, key, SlidingCounter(limit, windowMs), since, us);
    WindowHoldsTheLimit(Accepted(db, calls, key), limit, windowMs, i);
  }
}

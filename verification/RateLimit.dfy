/**
 The rate-limit script. A clock reading `us` is the server's TIME in whole microseconds; tokens,
 fractions and estimates are exact reals. Windows are whole milliseconds.
 */
module RateLimit {
  import opened Common

  datatype Config =
    | TokenBucket(maxTokens: real, refillRate: real)
    | FixedWindow(limit: int, windowMs: int)
    | SlidingLog(limit: int, windowMs: int)
    | SlidingCounter(limit: int, windowMs: int)

  datatype Rule = Rule(key: string, config: Config)

  datatype Entry = Entry(score: int, id: string)

  /** The fields `tokens` and `ts`, and the fields `w`, `cur` and `prev`, of a hash. */
  datatype Bucket = Bucket(tokens: real, ts: int)
  datatype Window = Window(index: int, cur: int, prev: int)

  datatype Value =
    | Text(count: int)
    | Hash(bucket: Option<Bucket>, window: Option<Window>)
    | SortedSet(entries: seq<Entry>)

  /** A Redis key with its expiry in milliseconds. */
  datatype Stored = Stored(value: Value, expireAt: int)

  type Redis = map<string, Stored>

  const MICROS := 1000000.0
  const EPSILON := 0.000000001

  function NowMs(us: int): int {
    us / 1000
  }

  /** Redis drops a key once the clock is past its expiry. */
  function View(db: Redis, key: string, us: int): Option<Stored> {
    if key in db && NowMs(us) <= db[key].expireAt then Some(db[key]) else None
  }

  predicate ValidConfig(c: Config) {
    match c
    case TokenBucket(maxTokens, refillRate) => maxTokens > 0.0 && refillRate > 0.0
    case FixedWindow(limit, windowMs) => limit >= 1 && windowMs > 0
    case SlidingLog(limit, windowMs) => limit >= 1 && windowMs > 0
    case SlidingCounter(limit, windowMs) => limit >= 1 && windowMs > 0
  }

  /** A command on a key of another type fails the script. */
  predicate RightType(e: Option<Stored>, c: Config) {
    e.Some? ==>
      match c
      case TokenBucket(_, _) => e.value.value.Hash?
      case FixedWindow(_, _) => e.value.value.Text?
      case SlidingLog(_, _) => e.value.value.SortedSet?
      case SlidingCounter(_, _) => e.value.value.Hash?
  }

  /** A bucket and a counter are hashes, a fixed window a number, a log a sorted set; a missing key fits any rule. */
  lemma RightTypeIs(e: Option<Stored>, c: Config)
    ensures e.None? ==> RightType(e, c)
    ensures e.Some? && (c.TokenBucket? || c.SlidingCounter?) ==> (RightType(e, c) <==> e.value.value.Hash?)
    ensures e.Some? && c.FixedWindow? ==> (RightType(e, c) <==> e.value.value.Text?)
    ensures e.Some? && c.SlidingLog? ==> (RightType(e, c) <==> e.value.value.SortedSet?)
  {
  }

  datatype Eval = Eval(allowed: bool, available: int, limit: int, retry: int)

  // ---------------------------------------------------------------- token bucket

  function RealMin(a: real, b: real): real {
    if a <= b then a else b
  }

  function Refilled(b: Bucket, maxTokens: real, refillRate: real, us: int): real {
    RealMin(maxTokens, b.tokens + (Max(0, us - b.ts) as real / MICROS) * refillRate)
  }

  function Tokens(e: Option<Stored>, maxTokens: real, refillRate: real, us: int): real {
    if e.Some? && e.value.value.Hash? && e.value.value.bucket.Some?
    then Refilled(e.value.value.bucket.value, maxTokens, refillRate, us)
    else Refilled(Bucket(maxTokens, us), maxTokens, refillRate, us)
  }

  // ---------------------------------------------------------------- sliding-window log

  ghost predicate ScoresSorted(entries: seq<Entry>) {
    forall i, j :: 0 <= i <= j < |entries| ==> entries[i].score <= entries[j].score
  }

  /** How many entries of a sorted set have a score of at most `x`. */
  function Rank(entries: seq<Entry>, x: int): (r: nat)
    ensures r <= |entries|
    ensures forall i :: 0 <= i < r ==> entries[i].score <= x
    ensures r < |entries| ==> x < entries[r].score
  {
    if entries == [] || x < entries[0].score then 0 else 1 + Rank(entries[1..], x)
  }

  function Entries(e: Option<Stored>): seq<Entry> {
    if e.Some? && e.value.value.SortedSet? then e.value.value.entries else []
  }

  // ---------------------------------------------------------------- sliding-window counter

  function WindowUs(windowMs: int): int {
    windowMs * 1000
  }

  /** The stored counts as seen from the window the clock is in. */
  function Shifted(e: Option<Stored>, index: int): Window {
    if e.Some? && e.value.value.Hash? && e.value.value.window.Some? then
      var w := e.value.value.window.value;
      if w.index == index - 1 then Window(index, 0, w.cur)
      else if w.index != index then Window(index, 0, 0)
      else w
    else Window(index, 0, 0)
  }

  function Fraction(us: int, windowMs: int): real
    requires windowMs > 0
  {
    var size := WindowUs(windowMs);
    (us - (us / size) * size) as real / size as real
  }

  function Estimate(e: Option<Stored>, us: int, windowMs: int): real
    requires windowMs > 0
  {
    var w := Shifted(e, us / WindowUs(windowMs));
    w.prev as real * (1.0 - Fraction(us, windowMs)) + w.cur as real
  }

  /** The moment, in windows, at which the estimate has dropped to `limit - 1`. */
  function Target(w: Window, limit: int): real
    requires (w.cur <= limit - 1 && w.prev > 0) || w.cur != 0
  {
    if w.cur <= limit - 1 && w.prev > 0
    then (w.index + 1) as real - (limit - 1 - w.cur) as real / w.prev as real
    else (w.index + 2) as real - (limit - 1) as real / w.cur as real
  }

  // ---------------------------------------------------------------- one rule

  function DecideBucket(e: Option<Stored>, maxTokens: real, refillRate: real, us: int): Eval
    requires refillRate > 0.0
  {
    var tokens := Tokens(e, maxTokens, refillRate, us);
    var allowed := tokens >= 1.0;
    Eval(allowed, tokens.Floor, maxTokens.Floor, if allowed then 0 else Ceil((1.0 - tokens) / refillRate))
  }

  function CeilDiv(a: int, b: int): int
    requires b > 0
  {
    -((-a) / b)
  }

  function DecideFixed(e: Option<Stored>, limit: int, windowMs: int, us: int): Eval {
    var count := if e.Some? && e.value.value.Text? then e.value.value.count else 0;
    var allowed := count < limit;
    var ttl := if e.Some? then e.value.expireAt - NowMs(us) else -2;
    var wait := if ttl < 0 then windowMs else ttl;
    Eval(allowed, Max(0, limit - count), limit, if allowed then 0 else Max(1, CeilDiv(wait, 1000)))
  }

  function DecideLog(e: Option<Stored>, limit: int, windowMs: int, us: int): Eval
    requires limit >= 1
  {
    var entries := Entries(e);
    var gone := Rank(entries, NowMs(us) - windowMs);
    var count := |entries| - gone;
    var allowed := count < limit;
    Eval(allowed, Max(0, limit - count), limit,
    if allowed then 0
    else Max(1, CeilDiv(entries[gone + count - limit].score + windowMs - NowMs(us), 1000)))
  }

  function DecideCounter(e: Option<Stored>, limit: int, windowMs: int, us: int): Eval
    requires windowMs > 0
  {
    var w := Shifted(e, us / WindowUs(windowMs));
    var estimated := Estimate(e, us, windowMs);
    var allowed := estimated + 1.0 <= limit as real + EPSILON;
    var retry :=
      if allowed || !((w.cur <= limit - 1 && w.prev > 0) || w.cur != 0) then 0
      else Max(1, Ceil((Target(w, limit) * WindowUs(windowMs) as real - us as real) / MICROS));
    Eval(allowed, Max(0, (limit as real - estimated + EPSILON).Floor), limit, retry)
  }

  function Decide(e: Option<Stored>, c: Config, us: int): Eval
    requires ValidConfig(c)
  {
    match c
    case TokenBucket(maxTokens, refillRate) => DecideBucket(e, maxTokens, refillRate, us)
    case FixedWindow(limit, windowMs) => DecideFixed(e, limit, windowMs, us)
    case SlidingLog(limit, windowMs) => DecideLog(e, limit, windowMs, us)
    case SlidingCounter(limit, windowMs) => DecideCounter(e, limit, windowMs, us)
  }

  /** What `commit` leaves under the key. */
  function Consume(e: Option<Stored>, c: Config, us: int, id: string): Stored
    requires ValidConfig(c)
  {
    match c
    case TokenBucket(maxTokens, refillRate) =>
      var window := if e.Some? && e.value.value.Hash? then e.value.value.window else None;
      Stored(Hash(Some(Bucket(Tokens(e, maxTokens, refillRate, us) - 1.0, us)), window),
             NowMs(us) + (Ceil(maxTokens / refillRate) + 1) * 1000)
    case FixedWindow(limit, windowMs) =>
      var count := if e.Some? && e.value.value.Text? then e.value.value.count + 1 else 1;
      Stored(Text(count), if count == 1 || e.None? then NowMs(us) + windowMs else e.value.expireAt)
    case SlidingLog(limit, windowMs) =>
      var entries := Entries(e);
      Stored(SortedSet(entries[Rank(entries, NowMs(us) - windowMs)..] + [Entry(NowMs(us), id)]),
             NowMs(us) + windowMs + 1000)
    case SlidingCounter(limit, windowMs) =>
      var bucket := if e.Some? && e.value.value.Hash? then e.value.value.bucket else None;
      var w := Shifted(e, us / WindowUs(windowMs));
      Stored(Hash(bucket, Some(w.(cur := w.cur + 1))), NowMs(us) + windowMs * 2 + 1000)
  }

  /** Buckets and counters may share a hash: each writes its own fields. */
  lemma CommitKeepsOtherFields(e: Stored, c: Config, us: int, id: string)
    requires ValidConfig(c) && e.value.Hash? && (c.TokenBucket? || c.SlidingCounter?)
    ensures var e' := Consume(Some(e), c, us, id);
            && e'.value.Hash? && (c.TokenBucket? ==> e'.value.window == e.value.window)
            && (c.SlidingCounter? ==> e'.value.bucket == e.value.bucket)
  {
  }

  /** How long a commit makes the key live: a counter's for two windows and a second, a log's for one and a second. */
  lemma CommitExpires(e: Option<Stored>, c: Config, us: int, id: string)
    requires ValidConfig(c)
    ensures var until := Consume(e, c, us, id).expireAt - us / 1000;
            match c
            case TokenBucket(max, rate) => until == (Ceil(max / rate) + 1) * 1000
            case FixedWindow(_, windowMs) => (e.None? ==> until == windowMs)
            case SlidingLog(_, windowMs) => until == windowMs + 1000
            case SlidingCounter(_, windowMs) => until == 2 * windowMs + 1000
  {
  }

  // ---------------------------------------------------------------- the whole script

  ghost predicate DistinctKeys(rules: seq<Rule>) {
    forall i, j :: 0 <= i < j < |rules| ==> rules[i].key != rules[j].key
  }

  ghost predicate ValidRules(rules: seq<Rule>) {
    DistinctKeys(rules) && forall i :: 0 <= i < |rules| ==> ValidConfig(rules[i].config)
  }

  predicate TypesFit(db: Redis, rules: seq<Rule>, us: int) {
    forall i :: 0 <= i < |rules| ==> RightType(View(db, rules[i].key, us), rules[i].config)
  }

  function EvalAt(db: Redis, rules: seq<Rule>, us: int, i: nat): Eval
    requires i < |rules| && ValidConfig(rules[i].config)
  {
    Decide(View(db, rules[i].key, us), rules[i].config, us)
  }

  function EvalsOf(db: Redis, rules: seq<Rule>, us: int): (r: seq<Eval>)
    requires forall i :: 0 <= i < |rules| ==> ValidConfig(rules[i].config)
    ensures |r| == |rules|
    ensures forall i :: 0 <= i < |rules| ==> r[i] == EvalAt(db, rules, us, i)
  {
    seq(|rules|, i requires 0 <= i < |rules| => EvalAt(db, rules, us, i))
  }

  predicate AllAllow(db: Redis, rules: seq<Rule>, us: int)
    requires forall i :: 0 <= i < |rules| ==> ValidConfig(rules[i].config)
  {
    forall i :: 0 <= i < |rules| ==> EvalAt(db, rules, us, i).allowed
  }

  /** Every rule's commit, each computed from the state the script found. */
  function CommitAll(db: Redis, rules: seq<Rule>, us: int, id: string): (r: Redis)
    requires forall i :: 0 <= i < |rules| ==> ValidConfig(rules[i].config)
    decreases |rules|
  {
    if rules == [] then db
    else
      var last := rules[|rules| - 1];
      CommitAll(db, rules[..|rules| - 1], us, id)[last.key := Consume(View(db, last.key, us), last.config, us, id)]
  }

  /** A rule's key gets its own commit, whatever the other rules are. */
  lemma {:induction false} CommitAllAt(db: Redis, rules: seq<Rule>, us: int, id: string, i: nat)
    requires ValidRules(rules) && i < |rules|
    ensures rules[i].key in CommitAll(db, rules, us, id)
    ensures CommitAll(db, rules, us, id)[rules[i].key] == Consume(View(db, rules[i].key, us), rules[i].config, us, id)
    decreases |rules|
  {
    var n := |rules| - 1;
    if i < n {
      assert rules[i].key != rules[n].key;
      CommitAllAt(db, rules[..n], us, id, i);
    }
  }

  /** A key of no rule keeps what it has. */
  lemma {:induction false} CommitAllElsewhere(db: Redis, rules: seq<Rule>, us: int, id: string, key: string)
    requires ValidRules(rules) && forall i :: 0 <= i < |rules| ==> rules[i].key != key
    ensures key in CommitAll(db, rules, us, id) <==> key in db
    ensures key in db ==> CommitAll(db, rules, us, id)[key] == db[key]
    decreases |rules|
  {
    if rules != [] {
      CommitAllElsewhere(db, rules[..|rules| - 1], us, id, key);
    }
  }

  /** `allowed`, the 1-based index of the deciding rule, and that rule's numbers. */
  datatype Reply = Reply(allowed: bool, index: nat, remaining: int, limit: int, retry: int)

  datatype ScriptError = WrongType

  /** The longest wait, and the first rule to need it. */
  ghost predicate IsWorst(evals: seq<Eval>, w: nat) {
    && w < |evals| && !evals[w].allowed
    && (forall j :: 0 <= j < |evals| && !evals[j].allowed ==> evals[j].retry <= evals[w].retry)
    && (forall j :: 0 <= j < w && !evals[j].allowed ==> evals[j].retry < evals[w].retry)
  }

  /** The fewest requests left, and the first rule to have so few. */
  ghost predicate IsTightest(evals: seq<Eval>, t: nat) {
    && t < |evals|
    && (forall j :: 0 <= j < |evals| ==> evals[t].available <= evals[j].available)
    && (forall j :: 0 <= j < t ==> evals[t].available < evals[j].available)
  }

  /** What the loop's two variables hold after some of the rules. */
  ghost predicate Verdict(evals: seq<Eval>, worst: Option<nat>, tightest: nat) {
    && (worst.None? <==> forall j :: 0 <= j < |evals| ==> evals[j].allowed)
    && (worst.Some? ==> IsWorst(evals, worst.value))
    && if evals == [] then tightest == 0 else IsTightest(evals, tightest)
  }

  lemma VerdictStep(evals: seq<Eval>, eval: Eval, worst: Option<nat>, tightest: nat)
    requires Verdict(evals, worst, tightest)
    ensures var all := evals + [eval];
            Verdict(all,
                    if !eval.allowed && (worst.None? || all[worst.value].retry < eval.retry) then Some(|evals|) else worst,
                    if eval.available < all[tightest].available then |evals| else tightest)
  {
    var all := evals + [eval];
    assert all[|evals|] == eval;
    assert forall j :: 0 <= j < |evals| ==> all[j] == evals[j];
  }

  /** How a reply follows from the evaluations. */
  ghost predicate Explains(evals: seq<Eval>, consume: bool, r: Reply)
    requires 1 <= r.index <= |evals|
  {
    var e := evals[r.index - 1];
    && r.limit == e.limit
    && if r.allowed then
         IsTightest(evals, r.index - 1) && r.retry == 0 &&
         r.remaining == if consume then e.available - 1 else e.available
       else
         IsWorst(evals, r.index - 1) && r.retry == e.retry && r.remaining == e.available
  }

  datatype RuleError = EmptyKey | DuplicateKey | BadNumber

  /** What is wrong with a rule: its key, then whether an earlier rule has it, then its numbers. */
  ghost function Fault(rules: seq<Rule>, i: nat): Option<RuleError>
    requires i < |rules|
  {
    if rules[i].key == "" then Some(EmptyKey)
    else if exists j :: 0 <= j < i && rules[j].key == rules[i].key then Some(DuplicateKey)
    else
      match rules[i].config
      case TokenBucket(maxTokens, refillRate) => if 0.0 < maxTokens && 0.0 < refillRate then None else Some(BadNumber)
      case FixedWindow(limit, windowMs) => if 1 <= limit && 0 < windowMs then None else Some(BadNumber)
      case SlidingLog(limit, windowMs) => if 1 <= limit && 0 < windowMs then None else Some(BadNumber)
      case SlidingCounter(limit, windowMs) => if 1 <= limit && 0 < windowMs then None else Some(BadNumber)
  }

  /** `assertValidRules`. */
  method AssertValidRules(rules: seq<Rule>) returns (error: Option<RuleError>)
    ensures error.None? <==> ValidRules(rules) && forall i :: 0 <= i < |rules| ==> rules[i].key != ""
    ensures error.None? <==> forall i :: 0 <= i < |rules| ==> Fault(rules, i).None?
    ensures error.Some? ==> exists i :: 0 <= i < |rules| && Fault(rules, i) == error && forall j :: 0 <= j < i ==> Fault(rules, j).None?
  {
    var seen: set<string> := {};
    for i := 0 to |rules|
      invariant forall k :: k in seen <==> exists j :: 0 <= j < i && rules[j].key == k
      invariant forall j :: 0 <= j < i ==> rules[j].key != "" && ValidConfig(rules[j].config)
      invariant DistinctKeys(rules[..i])
      invariant forall j :: 0 <= j < i ==> Fault(rules, j).None?
    {
      if rules[i].key == "" {
        assert Fault(rules, i) == Some(EmptyKey);
        return Some(EmptyKey);
      }
      if rules[i].key in seen {
        assert Fault(rules, i) == Some(DuplicateKey);
        return Some(DuplicateKey);
      }
      assert forall j :: 0 <= j < i ==> rules[j].key in seen;
      seen := seen + {rules[i].key};
      if !ValidConfig(rules[i].config) {
        assert Fault(rules, i) == Some(BadNumber);
        return Some(BadNumber);
      }
      assert rules[..i + 1] == rules[..i] + [rules[i]];
    }
    assert rules[..|rules|] == rules;
    return None;
  }

  class RateLimitScript {
    var db: Redis

    constructor ()
      ensures db == map[]
    {
      db := map[];
    }

    /** The loop that evaluates every rule; a command on a wrongly typed key aborts the script. */
    method Evaluate(us: int, rules: seq<Rule>)
      returns (typed: bool, evals: seq<Eval>, worst: Option<nat>, tightest: nat)
      requires rules != [] && ValidRules(rules)
      ensures typed <==> TypesFit(db, rules, us)
      ensures typed ==> evals == EvalsOf(db, rules, us)
      ensures typed ==> IsTightest(evals, tightest)
      ensures typed ==> (worst.None? <==> AllAllow(db, rules, us))
      ensures typed && worst.Some? ==> IsWorst(evals, worst.value)
    {
      evals, worst, tightest := [], None, 0;
      for i := 0 to |rules|
        invariant evals == EvalsOf(db, rules, us)[..i]
        invariant forall j :: 0 <= j < i ==> RightType(View(db, rules[j].key, us), rules[j].config)
        invariant Verdict(evals, worst, tightest)
      {
        var view := View(db, rules[i].key, us);
        if !RightType(view, rules[i].config) {
          return false, [], None, 0;
        }
        var eval := Decide(view, rules[i].config, us);
        VerdictStep(evals, eval, worst, tightest);
        evals := evals + [eval];
        if !eval.allowed && (worst.None? || evals[worst.value].retry < eval.retry) {
          worst := Some(i);
        }
        if eval.available < evals[tightest].available {
          tightest := i;
        }
      }
      assert evals == EvalsOf(db, rules, us);
      return true, evals, worst, tightest;
    }

    /** All rules are evaluated, and either all of them consume or none. */
    method Run(consume: bool, id: string, us: int, rules: seq<Rule>) returns (r: Result<Reply, ScriptError>)
      requires rules != [] && ValidRules(rules)
      modifies this
      ensures r.Err? <==> !TypesFit(old(db), rules, us)
      ensures r.Ok? ==> (r.value.allowed <==> AllAllow(old(db), rules, us))
      ensures db == if r.Ok? && r.value.allowed && consume then CommitAll(old(db), rules, us, id) else old(db)
      ensures r.Ok? ==> 1 <= r.value.index <= |rules| && Explains(EvalsOf(old(db), rules, us), consume, r.value)
    {
      var typed, evals, worst, tightest := Evaluate(us, rules);
      if !typed {
        return Err(WrongType);
      }
      if worst.Some? {
        var e := evals[worst.value];
        return Ok(Reply(false, worst.value + 1, e.available, e.limit, e.retry));
      }
      var remaining := evals[tightest].available;
      if consume {
        Commit(us, id, rules);
        remaining := remaining - 1;
      }
      return Ok(Reply(true, tightest + 1, remaining, evals[tightest].limit, 0));
    }

    method Commit(us: int, id: string, rules: seq<Rule>)
      requires ValidRules(rules)
      modifies this
      ensures db == CommitAll(old(db), rules, us, id)
    {
      var found := db;
      for i := 0 to |rules|
        invariant db == CommitAll(found, rules[..i], us, id)
      {
        db := db[rules[i].key := Consume(View(found, rules[i].key, us), rules[i].config, us, id)];
        assert rules[..i + 1][..i] == rules[..i];
      }
      assert rules[..|rules|] == rules;
    }
  }
}

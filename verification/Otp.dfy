/**
 An OTP challenge: `start` stores a digest for `ttl` seconds, and any number of `verify` calls run
 concurrently, each of them several Redis commands. The attempt counter is the fixed-window
 limiter with a window of the same length.
 */
module Otp {
  import opened Common
  import opened RateLimit

  /** Where a `verify` call stands. `Allowed` has consumed, `Found` has read the digest. */
  datatype Stage = Allowed | Refused | Found | Deleted | Compared | Over

  /**
   `attempts` is the counter's key, `digest` tells whether the digest key exists, `deadline` its
   expiry. `inTime` collects the calls the limiter allowed while the digest could still be read.
   */
  datatype Challenge = Challenge(
    attempts: Option<Stored>,
    digest: bool,
    deadline: int,
    clock: int,
    calls: map<nat, Stage>,
    inTime: set<nat>)

  datatype Event =
    | Consume(call: nat, us: int)
    | DropRefused(call: nat, us: int)
    | Get(call: nat, us: int)
    | Delete(call: nat, us: int)
    | Compare(call: nat, us: int)

  function Started(us: int, ttl: int): Challenge {
    Challenge(None, true, NowMs(us) + ttl * 1000, us, map[], {})
  }

  /** The counter's key as Redis shows it. */
  function Counter(c: Challenge, us: int): Option<Stored> {
    if c.attempts.Some? && NowMs(us) <= c.attempts.value.expireAt then c.attempts else None
  }

  function Rule(limit: int, ttl: int): Config {
    FixedWindow(limit, ttl * 1000)
  }

  predicate Readable(c: Challenge, us: int) {
    c.digest && NowMs(us) <= c.deadline
  }

  ghost predicate Enabled(c: Challenge, e: Event) {
    && c.clock <= e.us
    && match e
       case Consume(call, _) => call !in c.calls
       case DropRefused(call, _) => call in c.calls && c.calls[call] == Refused
       case Get(call, _) => call in c.calls && c.calls[call] == Allowed
       case Delete(call, _) => call in c.calls && c.calls[call] == Found
       case Compare(call, _) => call in c.calls && c.calls[call] == Deleted
  }

  function Next(c: Challenge, e: Event, limit: int, ttl: int): Challenge
    requires limit >= 1 && ttl >= 1
  {
    var now := c.(clock := e.us);
    match e
    case Consume(call, us) =>
      var seen := Counter(c, us);
      if Decide(seen, Rule(limit, ttl), us).allowed then
        now.(attempts := Some(RateLimit.Consume(seen, Rule(limit, ttl), us, "")),
        calls := c.calls[call := Allowed],
        inTime := if NowMs(us) <= c.deadline then c.inTime + {call} else c.inTime)
      else
        now.(calls := c.calls[call := Refused])
    case DropRefused(call, us) =>
      now.(digest := false, calls := c.calls[call := Over])
    case Get(call, us) =>
      now.(calls := c.calls[call := if Readable(c, us) then Found else Over])
    case Delete(call, us) =>
      now.(digest := false, calls := c.calls[call := Deleted])
    case Compare(call, us) =>
      now.(calls := c.calls[call := Compared])
  }

  ghost function Run(c: Challenge, events: seq<Event>, limit: int, ttl: int): Challenge
    requires limit >= 1 && ttl >= 1
    decreases |events|
  {
    if events == [] then c else Run(Next(c, events[0], limit, ttl), events[1..], limit, ttl)
  }

  ghost predicate Possible(c: Challenge, events: seq<Event>, limit: int, ttl: int)
    requires limit >= 1 && ttl >= 1
    decreases |events|
  {
    events != [] ==> Enabled(c, events[0]) && Possible(Next(c, events[0], limit, ttl), events[1..], limit, ttl)
  }

  function Comparisons(c: Challenge): set<nat> {
    set call | call in c.calls && c.calls[call] == Compared
  }

  /** While the digest can be read, the counter's window is the first one and counts every allowed call. */
  ghost predicate Good(c: Challenge, limit: int, ttl: int) {
    && |c.inTime| <= limit
    && (forall call :: call in c.inTime ==> call in c.calls)
    && (forall call :: call in c.calls && c.calls[call] in {Found, Deleted, Compared} ==> call in c.inTime)
    && c.deadline <= NowMs(c.clock) + ttl * 1000
    && (NowMs(c.clock) <= c.deadline ==>
          && (forall call :: call in c.calls && c.calls[call] == Allowed ==> call in c.inTime)
          && if c.attempts.None? then c.inTime == {}
             else
               && c.attempts.value.value == Text(|c.inTime|) && 0 < |c.inTime|
               && c.deadline <= c.attempts.value.expireAt)
  }

  lemma ConsumeKeepsGood(c: Challenge, call: nat, us: int, limit: int, ttl: int)
    requires limit >= 1 && ttl >= 1 && Good(c, limit, ttl) && Enabled(c, Consume(call, us))
    ensures Good(Next(c, Consume(call, us), limit, ttl), limit, ttl)
  {
    assert NowMs(c.clock) <= NowMs(us);
    if NowMs(us) <= c.deadline {
      assert Counter(c, us) == c.attempts;
      assert call !in c.inTime;
      assert |c.inTime + {call}| == |c.inTime| + 1;
    }
  }

  lemma {:induction false} GoodAlongRuns(c: Challenge, events: seq<Event>, limit: int, ttl: int)
    requires limit >= 1 && ttl >= 1 && Good(c, limit, ttl) && Possible(c, events, limit, ttl)
    ensures Good(Run(c, events, limit, ttl), limit, ttl)
    decreases |events|
  {
    if events != [] {
      var e := events[0];
      assert NowMs(c.clock) <= NowMs(e.us);
      if e.Consume? {
        ConsumeKeepsGood(c, e.call, e.us, limit, ttl);
      }
      assert Good(Next(c, e, limit, ttl), limit, ttl);
      GoodAlongRuns(Next(c, e, limit, ttl), events[1..], limit, ttl);
    }
  }

  /** However many `verify` calls run, and however they interleave, at most `limit` ever compare. */
  lemma AtMostLimitComparisons(us: int, events: seq<Event>, limit: int, ttl: int)
    requires limit >= 1 && ttl >= 1 && Possible(Started(us, ttl), events, limit, ttl)
    ensures |Comparisons(Run(Started(us, ttl), events, limit, ttl))| <= limit
  {
    GoodAlongRuns(Started(us, ttl), events, limit, ttl);
    var end := Run(Started(us, ttl), events, limit, ttl);
    SubsetIsSmaller(Comparisons(end), end.inTime);
  }

  /** In time, a call is let through exactly while fewer than `limit` have been. */
  lemma AllowedUpToTheLimit(c: Challenge, call: nat, us: int, limit: int, ttl: int)
    requires limit >= 1 && ttl >= 1 && Good(c, limit, ttl) && Enabled(c, Consume(call, us)) && us / 1000 <= c.deadline
    ensures Next(c, Consume(call, us), limit, ttl).calls == c.calls[call := if |c.inTime| < limit then Allowed else Refused]
    ensures Next(c, Consume(call, us), limit, ttl).digest == c.digest
  {
    assert NowMs(c.clock) <= NowMs(us);
    assert Counter(c, us) == c.attempts;
  }

  /** A code can be read for `ttl` seconds, and the first call opens an attempt window of the same length. */
  lemma LivesForItsTtl(us: int, at: int, call: nat, limit: int, ttl: int)
    requires limit >= 1 && ttl >= 1 && us <= at
    ensures Readable(Started(us, ttl), at) <==> at / 1000 <= us / 1000 + ttl * 1000
    ensures Next(Started(us, ttl), Consume(call, at), limit, ttl).attempts == Some(Stored(Text(1), at / 1000 + ttl * 1000))
  {
  }

  // ---------------------------------------------------------------- one code, one try

  /** Whoever got as far as deleting the digest has deleted it. */
  ghost predicate Spent(c: Challenge) {
    forall call :: call in c.calls && c.calls[call] in {Deleted, Compared} ==> !c.digest
  }

  lemma {:induction false} SpentAlongRuns(c: Challenge, events: seq<Event>, limit: int, ttl: int)
    requires limit >= 1 && ttl >= 1 && Spent(c) && Possible(c, events, limit, ttl)
    ensures Spent(Run(c, events, limit, ttl)) && (!c.digest ==> !Run(c, events, limit, ttl).digest)
    decreases |events|
  {
    if events != [] {
      assert Spent(Next(c, events[0], limit, ttl));
      SpentAlongRuns(Next(c, events[0], limit, ttl), events[1..], limit, ttl);
    }
  }

  /** A read finds the digest exactly while it is there and in time, and leaves it there. */
  lemma FoundIffThere(c: Challenge, call: nat, us: int, limit: int, ttl: int)
    requires limit >= 1 && ttl >= 1 && Enabled(c, Get(call, us))
    ensures var next := Next(c, Get(call, us), limit, ttl);
            next.calls == c.calls[call := if c.digest && us / 1000 <= c.deadline then Found else Over] && next.digest == c.digest
  {
  }

  /** Once any call has compared, or was refused and has dropped the digest, no call that reads later finds it. */
  lemma OneTry(us: int, events: seq<Event>, call: nat, more: seq<Event>, reader: nat, at: int, limit: int, ttl: int)
    requires limit >= 1 && ttl >= 1 && Possible(Started(us, ttl), events, limit, ttl)
    requires var c := Run(Started(us, ttl), events, limit, ttl);
             && call in c.calls && (c.calls[call] == Compared || c.calls[call] == Refused)
             && var next := if c.calls[call] == Refused then Next(c, DropRefused(call, c.clock), limit, ttl) else c;
                Possible(next, more, limit, ttl) && Enabled(Run(next, more, limit, ttl), Get(reader, at))
    ensures var c := Run(Started(us, ttl), events, limit, ttl);
            var next := if c.calls[call] == Refused then Next(c, DropRefused(call, c.clock), limit, ttl) else c;
            Next(Run(next, more, limit, ttl), Get(reader, at), limit, ttl).calls[reader] == Over
  {
    SpentAlongRuns(Started(us, ttl), events, limit, ttl);
    var c := Run(Started(us, ttl), events, limit, ttl);
    var next := if c.calls[call] == Refused then Next(c, DropRefused(call, c.clock), limit, ttl) else c;
    SpentAlongRuns(next, more, limit, ttl);
    FoundIffThere(Run(next, more, limit, ttl), reader, at, limit, ttl);
  }
}

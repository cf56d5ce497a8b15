/**
 The wait-for graph of the producers' advisory locks: when it can have a cycle, and why one call of `add` per
 transaction is safe.
 */
module ProducersLocks {
  import opened Common
  import opened Producers

  /** The calls of `add` a transaction makes, each with the keys of its messages. */
  type Plan = seq<seq<Option<Key>>>

  /** The locks those calls take, in order. */
  function PlanLocks(plan: Plan, hash: Hash): seq<int> {
    if plan == [] then [] else KeyLocks(plan[0], hash) + PlanLocks(plan[1..], hash)
  }

  function AddsOf(events: seq<Event>, t: nat): Plan {
    if events == [] then []
    else (if events[0].Add? && events[0].t == t then [events[0].messages] else []) + AddsOf(events[1..], t)
  }

  lemma {:induction false} PlanLocksAppend(a: Plan, b: Plan, hash: Hash)
    ensures PlanLocks(a + b, hash) == PlanLocks(a, hash) + PlanLocks(b, hash)
  {
    if a == [] {
      assert a + b == b;
    } else {
      assert (a + b)[1..] == a[1..] + b;
      PlanLocksAppend(a[1..], b, hash);
    }
  }

  function LocksIn(s: System, t: nat): seq<int> {
    if t in s.txs then s.txs[t].locks else []
  }

  lemma LocksAfterEvent(s: System, e: Event, hash: Hash, t: nat)
    requires Enabled(s, e)
    ensures LocksIn(Next(s, e, hash), t) == LocksIn(s, t) + PlanLocks(AddsOf([e], t), hash)
    ensures t in s.txs ==> t in Next(s, e, hash).txs
  {
    assert [e][1..] == [];
    if e.Add? && e.t == t {
      assert AddsOf([e], t) == [e.messages] && [e.messages][1..] == [];
      assert PlanLocks([e.messages], hash) == KeyLocks(e.messages, hash) + [];
    } else {
      assert AddsOf([e], t) == [];
      assert LocksIn(s, t) + [] == LocksIn(s, t);
    }
  }

  lemma AddsOfFirst(events: seq<Event>, t: nat)
    requires events != []
    ensures AddsOf(events, t) == AddsOf([events[0]], t) + AddsOf(events[1..], t)
  {
    assert [events[0]][1..] == [];
    assert AddsOf([events[0]], t) == (if events[0].Add? && events[0].t == t then [events[0].messages] else []) + [];
  }

  /** What a transaction locks is what its calls so far lock. */
  lemma {:induction false} LocksArePlanned(s: System, events: seq<Event>, hash: Hash, end: System, t: nat)
    requires Reachable(s, events, hash, end)
    ensures LocksIn(end, t) == LocksIn(s, t) + PlanLocks(AddsOf(events, t), hash)
    ensures t in s.txs ==> t in end.txs
    decreases |events|
  {
    if events == [] {
      assert LocksIn(s, t) + [] == LocksIn(s, t);
    } else {
      LocksAfterEvent(s, events[0], hash, t);
      LocksArePlanned(Next(s, events[0], hash), events[1..], hash, end, t);
      AddsOfFirst(events, t);
      PlanLocksAppend(AddsOf([events[0]], t), AddsOf(events[1..], t), hash);
      Associates(LocksIn(s, t), PlanLocks(AddsOf([events[0]], t), hash), PlanLocks(AddsOf(events[1..], t), hash));
    }
  }

  lemma Associates(a: seq<int>, b: seq<int>, c: seq<int>)
    ensures (a + b) + c == a + (b + c)
  {
  }

  // ---------------------------------------------------------------- in one order there is no deadlock

  /** Each lock not held already comes after all those before it, in the order of `rank`. */
  ghost predicate Rises(locks: seq<int>, rank: int -> int) {
    forall j :: 0 <= j < |locks| ==> locks[j] in locks[..j] || forall i :: 0 <= i < j ==> rank(locks[i]) < rank(locks[j])
  }

  ghost predicate InOrder(s: System, rank: int -> int) {
    forall t :: t in s.txs ==> Rises(s.txs[t].locks, rank)
  }

  /** Whoever is waited for and waits itself does so for a later lock. */
  lemma WaitsGoUp(s: System, t: nat, u: nat, hash: Hash, rank: int -> int)
    requires Good(s, hash) && InOrder(s, rank) && WaitsFor(s, t, u) && Blocked(s, u)
    ensures Asking(s, u) && rank(Wanted(s, t)) < rank(Wanted(s, u))
  {
    var v :| v in s.txs && WaitsFor(s, u, v);
    var tx := s.txs[u];
    assert Holds(s, v, Wanted(s, u)) && !Holds(s, u, Wanted(s, u));
    assert tx.locks[tx.held] !in tx.locks[..tx.held];
    var i :| 0 <= i < tx.held && tx.locks[i] == Wanted(s, t);
  }

  lemma {:induction false} WaitsGoUpAlongPaths(s: System, path: seq<nat>, hash: Hash, rank: int -> int)
    requires Good(s, hash) && InOrder(s, rank) && 2 <= |path|
    requires forall i :: 0 <= i < |path| - 1 ==> WaitsFor(s, path[i], path[i + 1])
    ensures path[|path| - 1] in s.txs && path[0] in s.txs && Asking(s, path[0])
    ensures Blocked(s, path[|path| - 1]) ==>
              Asking(s, path[|path| - 1]) && rank(Wanted(s, path[0])) < rank(Wanted(s, path[|path| - 1]))
    decreases |path|
  {
    assert WaitsFor(s, path[0], path[1]);
    if 2 < |path| {
      assert WaitsFor(s, path[1], path[2]);
      WaitsGoUp(s, path[0], path[1], hash, rank);
      WaitsGoUpAlongPaths(s, path[1..], hash, rank);
    } else if Blocked(s, path[1]) {
      WaitsGoUp(s, path[0], path[1], hash, rank);
    }
  }

  /** When every transaction locks in one common order, however many calls it makes, the graph has no cycle. */
  lemma OneOrderHasNoDeadlock(s: System, events: seq<Event>, hash: Hash, end: System, path: seq<nat>, rank: int -> int)
    requires Start(s) && Reachable(s, events, hash, end) && InOrder(end, rank)
    requires 2 <= |path| && forall i :: 0 <= i < |path| - 1 ==> WaitsFor(end, path[i], path[i + 1])
    ensures path[0] != path[|path| - 1]
  {
    GoodAlongRuns(s, events, hash, end);
    WaitsGoUpAlongPaths(end, path, hash, rank);
    assert WaitsFor(end, path[0], path[1]);
  }

  ghost predicate OneAddEach(events: seq<Event>) {
    forall t: nat :: |AddsOf(events, t)| <= 1
  }

  function Itself(lock: int): int {
    lock
  }

  lemma OneAddIsInOrder(s: System, events: seq<Event>, hash: Hash, end: System)
    requires Start(s) && Reachable(s, events, hash, end) && OneAddEach(events)
    ensures InOrder(end, Itself)
  {
    forall t | t in end.txs
      ensures Rises(end.txs[t].locks, Itself)
    {
      LocksArePlanned(s, events, hash, end, t);
      var plan := AddsOf(events, t);
      if plan != [] {
        assert PlanLocks(plan[1..], hash) == [];
        assert end.txs[t].locks == KeyLocks(plan[0], hash);
      }
    }
  }

  /** With one call of `add` per transaction the wait-for graph never has a cycle. */
  lemma NoDeadlock(s: System, events: seq<Event>, hash: Hash, end: System, path: seq<nat>)
    requires Start(s) && Reachable(s, events, hash, end) && OneAddEach(events)
    requires 2 <= |path| && forall i :: 0 <= i < |path| - 1 ==> WaitsFor(end, path[i], path[i + 1])
    ensures path[0] != path[|path| - 1]
  {
    OneAddIsInOrder(s, events, hash, end);
    OneOrderHasNoDeadlock(s, events, hash, end, path, Itself);
  }

  /** So some unfinished transaction can always take its next step. */
  lemma SomeoneCanMove(s: System, events: seq<Event>, hash: Hash, end: System, t: nat, rank: int -> int)
    requires Start(s) && Reachable(s, events, hash, end) && InOrder(end, rank)
    requires t in end.txs && end.txs[t].active
    ensures exists u :: u in end.txs && end.txs[u].active && !Blocked(end, u)
  {
    GoodAlongRuns(s, events, hash, end);
    var waiting := set u | u in end.txs && Blocked(end, u);
    if t in waiting {
      var u := GreediestWaiter(end, waiting, rank);
      var v :| v in end.txs && WaitsFor(end, u, v);
      if Blocked(end, v) {
        WaitsGoUp(end, u, v, hash, rank);
      }
      assert end.txs[v].active && !Blocked(end, v);
    } else {
      assert !Blocked(end, t);
    }
  }

  lemma {:induction false} GreediestWaiter(s: System, waiting: set<nat>, rank: int -> int) returns (u: nat)
    requires waiting != {} && forall v :: v in waiting ==> v in s.txs && Asking(s, v)
    ensures u in waiting && forall v :: v in waiting ==> rank(Wanted(s, v)) <= rank(Wanted(s, u))
    decreases |waiting|
  {
    var w := Witness(waiting);
    var rest := waiting - {w};
    if rest == {} {
      assert forall v :: v in waiting ==> v == w || v in rest;
      u := w;
    } else {
      u := GreediestWaiter(s, rest, rank);
      assert forall v :: v in waiting ==> v == w || v in rest;
      if rank(Wanted(s, u)) < rank(Wanted(s, w)) {
        u := w;
      }
    }
  }

  // ---------------------------------------------------------------- exactly when a deadlock can be reached

  function After(k: nat, n: nat): nat
    requires k < n
    ensures After(k, n) < n
  {
    if k + 1 == n then 0 else k + 1
  }

  ghost predicate Distinct(ts: seq<nat>) {
    forall i, j :: 0 <= i < j < |ts| ==> ts[i] != ts[j]
  }

  /** Each waits for the next, and the last for the first. */
  ghost predicate Ring(s: System, ts: seq<nat>) {
    2 <= |ts| && Distinct(ts) && forall k: nat :: k < |ts| ==> WaitsFor(s, ts[k], ts[After(k, |ts|)])
  }

  function PlanOf(plans: map<nat, Plan>, t: nat): Plan {
    if t in plans then plans[t] else []
  }

  ghost predicate Follows(events: seq<Event>, plans: map<nat, Plan>) {
    forall t: nat :: AddsOf(events, t) <= PlanOf(plans, t)
  }

  /** Some interleaving of transactions with these plans ends in a deadlock. */
  ghost predicate CanDeadlock(s: System, plans: map<nat, Plan>, hash: Hash) {
    exists events: seq<Event>, end: System, ts: seq<nat> ::
      Reachable(s, events, hash, end) && Follows(events, plans) && Ring(end, ts)
  }

  function LocksFor(plans: map<nat, Plan>, hash: Hash, t: nat): seq<int> {
    PlanLocks(PlanOf(plans, t), hash)
  }

  ghost predicate Apart(a: seq<int>, b: seq<int>) {
    forall lock :: lock in a ==> lock !in b
  }

  /**
   Places in the lock lists of some transactions such that each one's next lock is among those the next one has taken,
   while no two have taken the same.
   */
  ghost predicate Tangled(plans: map<nat, Plan>, hash: Hash, ts: seq<nat>, at: seq<nat>) {
    && 2 <= |ts| == |at| && Distinct(ts)
    && (forall k: nat :: k < |ts| ==> at[k] < |LocksFor(plans, hash, ts[k])|)
    && (forall k: nat :: k < |ts| ==>
          var next := After(k, |ts|);
          LocksFor(plans, hash, ts[k])[at[k]] in LocksFor(plans, hash, ts[next])[..at[next]])
    && (forall j: nat, k: nat :: j < k < |ts| ==>
          Apart(LocksFor(plans, hash, ts[j])[..at[j]], LocksFor(plans, hash, ts[k])[..at[k]]))
  }

  lemma PrefixLocks(a: Plan, b: Plan, hash: Hash)
    requires a <= b
    ensures PlanLocks(a, hash) <= PlanLocks(b, hash)
  {
    assert b == a + b[|a|..];
    PlanLocksAppend(a, b[|a|..], hash);
  }

  /** The locks of a running transaction are the first ones of its plan. */
  lemma RunningLocks(s: System, events: seq<Event>, hash: Hash, end: System, plans: map<nat, Plan>, t: nat)
    requires Start(s) && Reachable(s, events, hash, end) && Follows(events, plans) && t in end.txs
    ensures end.txs[t].locks <= LocksFor(plans, hash, t)
  {
    LocksArePlanned(s, events, hash, end, t);
    PrefixLocks(AddsOf(events, t), PlanOf(plans, t), hash);
    assert [] + PlanLocks(AddsOf(events, t), hash) == PlanLocks(AddsOf(events, t), hash);
  }

  lemma RingIsTangled(s: System, events: seq<Event>, hash: Hash, end: System, plans: map<nat, Plan>, ts: seq<nat>)
    returns (at: seq<nat>)
    requires Start(s) && Reachable(s, events, hash, end) && Follows(events, plans) && Ring(end, ts)
    ensures Tangled(plans, hash, ts, at)
  {
    GoodAlongRuns(s, events, hash, end);
    forall k: nat | k < |ts|
      ensures ts[k] in end.txs && Asking(end, ts[k]) && end.txs[ts[k]].locks <= LocksFor(plans, hash, ts[k])
    {
      assert WaitsFor(end, ts[k], ts[After(k, |ts|)]);
      RunningLocks(s, events, hash, end, plans, ts[k]);
    }
    at := seq(|ts|, k requires 0 <= k < |ts| && ts[k] in end.txs => end.txs[ts[k]].held);
    forall k: nat | k < |ts|
      ensures LocksFor(plans, hash, ts[k])[..at[k]] == end.txs[ts[k]].locks[..at[k]]
    {
    }
    forall k: nat | k < |ts|
      ensures LocksFor(plans, hash, ts[k])[at[k]] in LocksFor(plans, hash, ts[After(k, |ts|)])[..at[After(k, |ts|)]]
    {
      assert WaitsFor(end, ts[k], ts[After(k, |ts|)]);
    }
    forall j: nat, k: nat | j < k < |ts|
      ensures Apart(LocksFor(plans, hash, ts[j])[..at[j]], LocksFor(plans, hash, ts[k])[..at[k]])
    {
      forall lock | lock in LocksFor(plans, hash, ts[j])[..at[j]]
        ensures lock !in LocksFor(plans, hash, ts[k])[..at[k]]
      {
        assert Holds(end, ts[j], lock);
        assert !Holds(end, ts[k], lock);
      }
    }
  }

  // ---------------------------------------------------------------- running one transaction to a place

  lemma {:induction false} AddsOfBoth(a: seq<Event>, b: seq<Event>, t: nat)
    ensures AddsOf(a + b, t) == AddsOf(a, t) + AddsOf(b, t)
  {
    if a == [] {
      assert a + b == b;
    } else {
      assert (a + b)[0] == a[0] && (a + b)[1..] == a[1..] + b;
      AddsOfBoth(a[1..], b, t);
    }
  }

  lemma {:induction false} ReachableBoth(s: System, a: seq<Event>, mid: System, b: seq<Event>, hash: Hash, end: System)
    requires Reachable(s, a, hash, mid) && Reachable(mid, b, hash, end)
    ensures Reachable(s, a + b, hash, end)
    decreases |a|
  {
    if a == [] {
      assert a + b == b;
    } else {
      assert (a + b)[0] == a[0] && (a + b)[1..] == a[1..] + b;
      ReachableBoth(Next(s, a[0], hash), a[1..], mid, b, hash, end);
    }
  }

  lemma Concatenated(s: System, a: seq<Event>, mid: System, b: seq<Event>, hash: Hash, end: System)
    requires Reachable(s, a, hash, mid) && Reachable(mid, b, hash, end)
    ensures Reachable(s, a + b, hash, end)
    ensures forall t :: AddsOf(a + b, t) == AddsOf(a, t) + AddsOf(b, t)
  {
    ReachableBoth(s, a, mid, b, hash, end);
    forall t {
      AddsOfBoth(a, b, t);
    }
  }

  /** A single event is a run. */
  lemma OneEvent(s: System, e: Event, hash: Hash)
    requires Enabled(s, e)
    ensures Reachable(s, [e], hash, Next(s, e, hash))
    ensures forall t :: AddsOf([e], t) == if e.Add? && e.t == t then [e.messages] else []
  {
    assert [e][1..] == [];
  }

  ghost predicate FreeFor(s: System, t: nat, locks: seq<int>) {
    forall u, lock :: u in s.txs && u != t && lock in locks ==> !Holds(s, u, lock)
  }

  lemma {:induction false} AcquireUpTo(s: System, t: nat, i: nat, hash: Hash) returns (events: seq<Event>, end: System)
    requires t in s.txs && s.txs[t].active && s.txs[t].held <= i <= |s.txs[t].locks|
    requires FreeFor(s, t, s.txs[t].locks[..i])
    ensures Reachable(s, events, hash, end) && forall u :: AddsOf(events, u) == []
    ensures end == s.(txs := s.txs[t := s.txs[t].(held := i)])
    decreases i - s.txs[t].held
  {
    var tx := s.txs[t];
    if tx.held == i {
      assert s.txs[t := tx.(held := i)] == s.txs;
      return [], s;
    }
    assert tx.locks[tx.held] in tx.locks[..i];
    assert Enabled(s, Acquire(t));
    var next := Next(s, Acquire(t), hash);
    OneEvent(s, Acquire(t), hash);
    assert forall u, lock :: u in s.txs && u != t ==> (Holds(next, u, lock) <==> Holds(s, u, lock));
    var rest, last := AcquireUpTo(next, t, i, hash);
    Concatenated(s, [Acquire(t)], next, rest, hash, last);
    events, end := [Acquire(t)] + rest, last;
  }

  lemma {:induction false} DrawAll(s: System, t: nat, hash: Hash) returns (events: seq<Event>, end: System, drawn: seq<int>)
    requires t in s.txs && s.txs[t].active && s.txs[t].held == |s.txs[t].locks|
    requires |s.txs[t].drawn| <= |s.txs[t].messages|
    ensures Reachable(s, events, hash, end) && forall u :: AddsOf(events, u) == []
    ensures |drawn| == |s.txs[t].messages|
    ensures end == s.(txs := s.txs[t := s.txs[t].(drawn := drawn)], next := end.next)
    decreases |s.txs[t].messages| - |s.txs[t].drawn|
  {
    var tx := s.txs[t];
    if |tx.drawn| == |tx.messages| {
      assert s.txs[t := tx.(drawn := tx.drawn)] == s.txs;
      return [], s, tx.drawn;
    }
    var next := Next(s, Draw(t), hash);
    OneEvent(s, Draw(t), hash);
    var rest, last, all := DrawAll(next, t, hash);
    Concatenated(s, [Draw(t)], next, rest, hash, last);
    events, end, drawn := [Draw(t)] + rest, last, all;
  }

  /** Nothing but transaction `t` and the sequence moved. */
  ghost predicate OnlyMoved(s: System, end: System, t: nat) {
    && t in end.txs
    && (forall u :: u in end.txs <==> u in s.txs || u == t)
    && (forall u :: u in s.txs && u != t ==> end.txs[u] == s.txs[u])
  }

  /** A run in which only transaction `t` moves, with these calls. */
  ghost predicate Alone(s: System, events: seq<Event>, end: System, t: nat, calls: Plan, hash: Hash) {
    && Reachable(s, events, hash, end) && OnlyMoved(s, end, t)
    && (forall u :: AddsOf(events, u) == if u == t then calls else [])
  }

  lemma AloneAgain(s: System, a: seq<Event>, mid: System, b: seq<Event>, end: System, t: nat, calls: Plan, more: Plan, hash: Hash)
    requires Alone(s, a, mid, t, calls, hash) && Alone(mid, b, end, t, more, hash)
    ensures Alone(s, a + b, end, t, calls + more, hash)
  {
    Concatenated(s, a, mid, b, hash, end);
  }

  lemma StillFree(s: System, end: System, t: nat, locks: seq<int>)
    requires OnlyMoved(s, end, t) && FreeFor(s, t, locks)
    ensures FreeFor(end, t, locks)
  {
    forall u, lock | u in end.txs && u != t && lock in locks
      ensures !Holds(end, u, lock)
    {
      assert !Holds(s, u, lock);
    }
  }

  lemma AddOne(s: System, t: nat, messages: seq<Option<Key>>, hash: Hash) returns (end: System)
    requires t in s.txs && Idle(s.txs[t])
    ensures Alone(s, [Add(t, messages)], end, t, [messages], hash) && end.txs[t].active
    ensures end.txs[t].locks == s.txs[t].locks + KeyLocks(messages, hash) && end.txs[t].held == s.txs[t].held
    ensures end.txs[t].messages == s.txs[t].messages + messages && end.txs[t].drawn == s.txs[t].drawn
  {
    OneEvent(s, Add(t, messages), hash);
    end := Next(s, Add(t, messages), hash);
  }

  lemma FewerAreFree(s: System, t: nat, fewer: seq<int>, locks: seq<int>)
    requires fewer <= locks && FreeFor(s, t, locks)
    ensures FreeFor(s, t, fewer)
  {
    forall lock | lock in fewer
      ensures lock in locks
    {
      var i :| 0 <= i < |fewer| && fewer[i] == lock;
      assert locks[i] == lock;
    }
  }

  /** A transaction alone among free locks completes its first `n` calls. */
  lemma {:induction false} RunCalls(s: System, t: nat, plan: Plan, n: nat, hash: Hash) returns (events: seq<Event>, end: System)
    requires t !in s.txs && n <= |plan| && FreeFor(s, t, PlanLocks(plan[..n], hash))
    ensures RunsCalls(s, t, plan, n, hash, events, end)
    decreases n
  {
    if n == 0 {
      OneEvent(s, Begin(t), hash);
      return [Begin(t)], Next(s, Begin(t), hash);
    }
    FreeForFewerCalls(s, t, plan, n, hash);
    var before, mid := RunCalls(s, t, plan, n - 1, hash);
    events, end := OneMoreRun(s, t, plan, n, hash, before, mid);
  }

  ghost predicate RunsCalls(s: System, t: nat, plan: Plan, n: nat, hash: Hash, events: seq<Event>, end: System)
    requires n <= |plan|
  {
    && Alone(s, events, end, t, plan[..n], hash)
    && Idle(end.txs[t]) && end.txs[t].locks == PlanLocks(plan[..n], hash)
  }

  lemma OneMoreRun(s: System, t: nat, plan: Plan, n: nat, hash: Hash, before: seq<Event>, mid: System)
    returns (events: seq<Event>, end: System)
    requires 0 < n <= |plan| && FreeFor(s, t, PlanLocks(plan[..n], hash)) && RunsCalls(s, t, plan, n - 1, hash, before, mid)
    ensures RunsCalls(s, t, plan, n, hash, events, end)
  {
    StillFree(s, mid, t, PlanLocks(plan[..n], hash));
    var more, last := OneMoreCall(mid, t, plan, n, hash);
    AloneAgain(s, before, mid, more, last, t, plan[..n - 1], [plan[n - 1]], hash);
    assert plan[..n] == plan[..n - 1] + [plan[n - 1]];
    events, end := before + more, last;
  }

  lemma FreeForFewerCalls(s: System, t: nat, plan: Plan, n: nat, hash: Hash)
    requires 0 < n <= |plan| && FreeFor(s, t, PlanLocks(plan[..n], hash))
    ensures FreeFor(s, t, PlanLocks(plan[..n - 1], hash))
  {
    PrefixLocks(plan[..n - 1], plan[..n], hash);
    FewerAreFree(s, t, PlanLocks(plan[..n - 1], hash), PlanLocks(plan[..n], hash));
  }

  lemma OneMoreCall(s: System, t: nat, plan: Plan, n: nat, hash: Hash) returns (events: seq<Event>, end: System)
    requires t in s.txs && 0 < n <= |plan| && Idle(s.txs[t]) && s.txs[t].locks == PlanLocks(plan[..n - 1], hash)
    requires FreeFor(s, t, PlanLocks(plan[..n], hash))
    ensures Alone(s, events, end, t, [plan[n - 1]], hash)
    ensures Idle(end.txs[t]) && end.txs[t].locks == PlanLocks(plan[..n], hash)
  {
    NextLocks(plan, n, hash);
    var a := AddOne(s, t, plan[n - 1], hash);
    StillFree(s, a, t, PlanLocks(plan[..n], hash));
    assert a.txs[t].locks[..|a.txs[t].locks|] == a.txs[t].locks;
    var taking, b := AcquireUpTo(a, t, |a.txs[t].locks|, hash);
    var drawing, c, drawn := DrawAll(b, t, hash);
    AloneAgain(a, taking, b, drawing, c, t, [], [], hash);
    AloneAgain(s, [Add(t, plan[n - 1])], a, taking + drawing, c, t, [plan[n - 1]], [], hash);
    events, end := [Add(t, plan[n - 1])] + (taking + drawing), c;
  }

  lemma NextLocks(plan: Plan, n: nat, hash: Hash)
    requires 0 < n <= |plan|
    ensures PlanLocks(plan[..n], hash) == PlanLocks(plan[..n - 1], hash) + KeyLocks(plan[n - 1], hash)
  {
    assert plan[..n] == plan[..n - 1] + [plan[n - 1]];
    PlanLocksAppend(plan[..n - 1], [plan[n - 1]], hash);
    assert [plan[n - 1]][1..] == [];
    assert PlanLocks([plan[n - 1]], hash) == KeyLocks(plan[n - 1], hash) + [];
  }

  /** The call whose locks reach beyond place `i`. */
  lemma {:induction false} CallAt(plan: Plan, m: nat, i: nat, hash: Hash) returns (n: nat)
    requires m <= |plan| && i < |PlanLocks(plan[..m], hash)|
    ensures 0 < n <= |plan| && |PlanLocks(plan[..n - 1], hash)| <= i < |PlanLocks(plan[..n], hash)|
    decreases m
  {
    NotEmpty(plan[..m], hash);
    if i < |PlanLocks(plan[..m - 1], hash)| {
      n := CallAt(plan, m - 1, i, hash);
    } else {
      n := m;
    }
  }

  lemma NotEmpty(plan: Plan, hash: Hash)
    requires 0 < |PlanLocks(plan, hash)|
    ensures 0 < |plan|
  {
  }

  /** It holds the first `i` locks of its plan and asks for the next. */
  ghost predicate StandsAt(s: System, t: nat, locks: seq<int>, i: nat) {
    t in s.txs && s.txs[t].active && s.txs[t].held == i < |s.txs[t].locks| && s.txs[t].locks <= locks
  }

  /** From between two calls into the middle of the next one's locks. */
  lemma IntoCall(s: System, t: nat, plan: Plan, n: nat, i: nat, hash: Hash) returns (events: seq<Event>, end: System)
    requires t in s.txs && 0 < n <= |plan| && Idle(s.txs[t]) && s.txs[t].locks == PlanLocks(plan[..n - 1], hash)
    requires |PlanLocks(plan[..n - 1], hash)| <= i < |PlanLocks(plan[..n], hash)|
    requires FreeFor(s, t, PlanLocks(plan[..n], hash)[..i])
    ensures Alone(s, events, end, t, [plan[n - 1]], hash) && StandsAt(end, t, PlanLocks(plan[..n], hash), i)
  {
    NextLocks(plan, n, hash);
    var a := AddOne(s, t, plan[n - 1], hash);
    StillFree(s, a, t, PlanLocks(plan[..n], hash)[..i]);
    var taking, b := AcquireUpTo(a, t, i, hash);
    AloneAgain(s, [Add(t, plan[n - 1])], a, taking, b, t, [plan[n - 1]], [], hash);
    events, end := [Add(t, plan[n - 1])] + taking, b;
  }

  /** A place in the lock list, in terms of the call it belongs to. */
  lemma PlaceIn(plan: Plan, i: nat, hash: Hash) returns (n: nat)
    requires i < |PlanLocks(plan, hash)|
    ensures 0 < n <= |plan| && |PlanLocks(plan[..n - 1], hash)| <= i < |PlanLocks(plan[..n], hash)|
    ensures PlanLocks(plan[..n], hash) <= PlanLocks(plan, hash)
    ensures PlanLocks(plan[..n], hash)[..i] == PlanLocks(plan, hash)[..i]
    ensures PlanLocks(plan[..n - 1], hash) <= PlanLocks(plan, hash)[..i]
  {
    WholePlan(plan, hash);
    n := CallAt(plan, |plan|, i, hash);
    CallsBefore(plan, n, hash);
    SlicesOf(PlanLocks(plan[..n - 1], hash), PlanLocks(plan[..n], hash), PlanLocks(plan, hash), i);
  }

  lemma WholePlan(plan: Plan, hash: Hash)
    ensures PlanLocks(plan[..|plan|], hash) == PlanLocks(plan, hash)
  {
    assert plan[..|plan|] == plan;
  }

  lemma CallsBefore(plan: Plan, n: nat, hash: Hash)
    requires 0 < n <= |plan|
    ensures PlanLocks(plan[..n - 1], hash) <= PlanLocks(plan[..n], hash) <= PlanLocks(plan, hash)
  {
    PrefixLocks(plan[..n], plan, hash);
    PrefixLocks(plan[..n - 1], plan[..n], hash);
  }

  lemma SlicesOf(inner: seq<int>, outer: seq<int>, all: seq<int>, i: nat)
    requires inner <= outer <= all && |inner| <= i < |outer|
    ensures outer[..i] == all[..i] && inner <= all[..i]
  {
  }

  /** A transaction that starts among free locks gets to any place in its lock list. */
  lemma Advance(s: System, t: nat, plan: Plan, i: nat, hash: Hash) returns (events: seq<Event>, end: System)
    requires t !in s.txs && i < |PlanLocks(plan, hash)| && FreeFor(s, t, PlanLocks(plan, hash)[..i])
    ensures Reachable(s, events, hash, end) && OnlyMoved(s, end, t) && StandsAt(end, t, PlanLocks(plan, hash), i)
    ensures forall u :: AddsOf(events, u) <= if u == t then plan else []
  {
    var n := PlaceIn(plan, i, hash);
    events, end := AdvanceInto(s, t, plan, n, i, hash, PlanLocks(plan, hash));
    PrefixesChain(end.txs[t].locks, PlanLocks(plan[..n], hash), PlanLocks(plan, hash));
    assert plan[..n] <= plan;
  }

  lemma AdvanceInto(s: System, t: nat, plan: Plan, n: nat, i: nat, hash: Hash, locks: seq<int>)
    returns (events: seq<Event>, end: System)
    requires t !in s.txs && 0 < n <= |plan| && |PlanLocks(plan[..n - 1], hash)| <= i < |PlanLocks(plan[..n], hash)|
    requires i <= |locks| && PlanLocks(plan[..n - 1], hash) <= locks[..i] && PlanLocks(plan[..n], hash)[..i] == locks[..i]
    requires FreeFor(s, t, locks[..i])
    ensures Alone(s, events, end, t, plan[..n], hash) && StandsAt(end, t, PlanLocks(plan[..n], hash), i)
  {
    FewerAreFree(s, t, PlanLocks(plan[..n - 1], hash), locks[..i]);
    var before, mid := RunCalls(s, t, plan, n - 1, hash);
    StillFree(s, mid, t, locks[..i]);
    var more, b := IntoCall(mid, t, plan, n, i, hash);
    AloneAgain(s, before, mid, more, b, t, plan[..n - 1], [plan[n - 1]], hash);
    assert plan[..n] == plan[..n - 1] + [plan[n - 1]];
    events, end := before + more, b;
  }

  lemma PrefixesChain(a: seq<int>, b: seq<int>, c: seq<int>)
    requires a <= b <= c
    ensures a <= c
  {
  }

  // ---------------------------------------------------------------- building the deadlock

  ghost predicate AllStand(s: System, plans: map<nat, Plan>, hash: Hash, ts: seq<nat>, at: seq<nat>, k: nat)
    requires k <= |ts| == |at|
  {
    && (forall u :: u in s.txs <==> u in ts[..k])
    && (forall j :: 0 <= j < k ==> StandsAt(s, ts[j], LocksFor(plans, hash, ts[j]), at[j]))
  }

  lemma StandsApart(s: System, u: nat, theirs: seq<int>, i: nat, lock: int, ours: seq<int>)
    requires StandsAt(s, u, theirs, i) && Apart(theirs[..i], ours)
    ensures Holds(s, u, lock) ==> lock !in ours
  {
    assert s.txs[u].locks[..i] == theirs[..i];
  }

  lemma OthersLeaveItFree(s: System, plans: map<nat, Plan>, hash: Hash, ts: seq<nat>, at: seq<nat>, k: nat)
    requires Tangled(plans, hash, ts, at) && k < |ts| && AllStand(s, plans, hash, ts, at, k)
    ensures ts[k] !in s.txs && FreeFor(s, ts[k], LocksFor(plans, hash, ts[k])[..at[k]])
  {
    var ours := LocksFor(plans, hash, ts[k])[..at[k]];
    forall u, lock | u in s.txs
      ensures u != ts[k] && (Holds(s, u, lock) ==> lock !in ours)
    {
      var j: nat :| j < k && ts[j] == u;
      StandsApart(s, u, LocksFor(plans, hash, ts[j]), at[j], lock, ours);
    }
  }

  lemma {:induction false} AdvanceAll(s: System, plans: map<nat, Plan>, hash: Hash, ts: seq<nat>, at: seq<nat>, k: nat)
    returns (events: seq<Event>, end: System)
    requires Start(s) && Tangled(plans, hash, ts, at) && k <= |ts|
    ensures Reachable(s, events, hash, end) && AllStand(end, plans, hash, ts, at, k)
    ensures AddsWithin(events, plans, ts[..k])
    decreases k
  {
    if k == 0 {
      assert ts[..0] == [];
      return [], s;
    }
    var before, mid := AdvanceAll(s, plans, hash, ts, at, k - 1);
    var more, last := AdvanceNext(mid, plans, hash, ts, at, k);
    Concatenated(s, before, mid, more, hash, last);
    AddsWithinOneMore(before, more, plans, ts, k);
    events, end := before + more, last;
  }

  lemma AdvanceNext(mid: System, plans: map<nat, Plan>, hash: Hash, ts: seq<nat>, at: seq<nat>, k: nat)
    returns (more: seq<Event>, last: System)
    requires Tangled(plans, hash, ts, at) && 0 < k <= |ts| && AllStand(mid, plans, hash, ts, at, k - 1)
    ensures Reachable(mid, more, hash, last) && AllStand(last, plans, hash, ts, at, k)
    ensures forall u :: AddsOf(more, u) <= if u == ts[k - 1] then PlanOf(plans, ts[k - 1]) else []
  {
    OthersLeaveItFree(mid, plans, hash, ts, at, k - 1);
    more, last := Advance(mid, ts[k - 1], PlanOf(plans, ts[k - 1]), at[k - 1], hash);
    OneMoreStands(mid, last, plans, hash, ts, at, k);
  }

  ghost predicate AddsWithin(events: seq<Event>, plans: map<nat, Plan>, ts: seq<nat>) {
    forall u: nat :: AddsOf(events, u) <= if u in ts then PlanOf(plans, u) else []
  }

  lemma AddsWithinOneMore(before: seq<Event>, more: seq<Event>, plans: map<nat, Plan>, ts: seq<nat>, k: nat)
    requires 0 < k <= |ts| && Distinct(ts) && AddsWithin(before, plans, ts[..k - 1])
    requires forall u :: AddsOf(more, u) <= if u == ts[k - 1] then PlanOf(plans, ts[k - 1]) else []
    requires forall u :: AddsOf(before + more, u) == AddsOf(before, u) + AddsOf(more, u)
    ensures AddsWithin(before + more, plans, ts[..k])
  {
    assert ts[..k] == ts[..k - 1] + [ts[k - 1]] && ts[k - 1] !in ts[..k - 1];
    forall u: nat
      ensures AddsOf(before + more, u) <= if u in ts[..k] then PlanOf(plans, u) else []
    {
      assert AddsOf(before, u) <= if u in ts[..k - 1] then PlanOf(plans, u) else [];
      assert AddsOf(more, u) <= if u == ts[k - 1] then PlanOf(plans, ts[k - 1]) else [];
    }
  }

  lemma OneMoreStands(mid: System, last: System, plans: map<nat, Plan>, hash: Hash, ts: seq<nat>, at: seq<nat>, k: nat)
    requires 0 < k <= |ts| == |at| && Distinct(ts) && AllStand(mid, plans, hash, ts, at, k - 1)
    requires OnlyMoved(mid, last, ts[k - 1]) && StandsAt(last, ts[k - 1], LocksFor(plans, hash, ts[k - 1]), at[k - 1])
    ensures AllStand(last, plans, hash, ts, at, k)
  {
    assert ts[..k] == ts[..k - 1] + [ts[k - 1]];
    forall j | 0 <= j < k
      ensures StandsAt(last, ts[j], LocksFor(plans, hash, ts[j]), at[j])
    {
      if j < k - 1 {
        assert StandsAt(mid, ts[j], LocksFor(plans, hash, ts[j]), at[j]);
        assert ts[j] in mid.txs && ts[j] != ts[k - 1];
      }
    }
  }

  lemma StandingIsARing(s: System, plans: map<nat, Plan>, hash: Hash, ts: seq<nat>, at: seq<nat>)
    requires Tangled(plans, hash, ts, at) && AllStand(s, plans, hash, ts, at, |ts|)
    ensures Ring(s, ts)
  {
    forall k: nat | k < |ts|
      ensures WaitsFor(s, ts[k], ts[After(k, |ts|)])
    {
      var next := After(k, |ts|);
      assert StandsAt(s, ts[k], LocksFor(plans, hash, ts[k]), at[k]);
      assert StandsAt(s, ts[next], LocksFor(plans, hash, ts[next]), at[next]);
      AsksForTaken(s, ts[k], ts[next], LocksFor(plans, hash, ts[k]), LocksFor(plans, hash, ts[next]), at[k], at[next]);
    }
  }

  lemma AsksForTaken(s: System, t: nat, u: nat, ours: seq<int>, theirs: seq<int>, i: nat, j: nat)
    requires t != u && StandsAt(s, t, ours, i) && StandsAt(s, u, theirs, j)
    requires i < |ours| && j < |theirs| && ours[i] in theirs[..j]
    ensures WaitsFor(s, t, u)
  {
    assert s.txs[u].locks[..j] == theirs[..j];
    assert s.txs[t].locks[i] == ours[i];
  }

  /**
   A deadlock can be reached exactly when the lock lists of the transactions' calls tangle. One call each cannot:
   its list ascends.
   */
  lemma DeadlockIffTangled(s: System, plans: map<nat, Plan>, hash: Hash)
    requires Start(s)
    ensures CanDeadlock(s, plans, hash) <==> exists ts: seq<nat>, at: seq<nat> :: Tangled(plans, hash, ts, at)
  {
    if CanDeadlock(s, plans, hash) {
      var events: seq<Event>, end: System, ts: seq<nat> :|
        Reachable(s, events, hash, end) && Follows(events, plans) && Ring(end, ts);
      var at := RingIsTangled(s, events, hash, end, plans, ts);
    }
    if ts: seq<nat>, at: seq<nat> :| Tangled(plans, hash, ts, at) {
      var events, end := AdvanceAll(s, plans, hash, ts, at, |ts|);
      StandingIsARing(end, plans, hash, ts, at);
      assert Follows(events, plans);
    }
  }

  /** Two transactions tangle when each one's next lock is among those the other has taken. */
  lemma PairTangles(plans: map<nat, Plan>, hash: Hash, t: nat, u: nat, i: nat, j: nat)
    requires t != u && i < |LocksFor(plans, hash, t)| && j < |LocksFor(plans, hash, u)|
    requires LocksFor(plans, hash, t)[i] in LocksFor(plans, hash, u)[..j]
    requires LocksFor(plans, hash, u)[j] in LocksFor(plans, hash, t)[..i]
    requires Apart(LocksFor(plans, hash, t)[..i], LocksFor(plans, hash, u)[..j])
    ensures Tangled(plans, hash, [t, u], [i, j])
  {
    assert Distinct([t, u]);
    forall k: nat | k < 2
      ensures var next := After(k, 2);
              LocksFor(plans, hash, [t, u][k])[[i, j][k]] in LocksFor(plans, hash, [t, u][next])[..[i, j][next]]
    {
      assert k == 0 || k == 1;
    }
  }

  lemma CrossedPairsTangle(plans: map<nat, Plan>, hash: Hash, a: int, b: int)
    requires a != b && LocksFor(plans, hash, 0) == [a, b] && LocksFor(plans, hash, 1) == [b, a]
    ensures Tangled(plans, hash, [0, 1], [1, 1])
  {
    assert [a, b][..1] == [a] && [b, a][..1] == [b];
    PairTangles(plans, hash, 0, 1, 1, 1);
  }

  /** Two transactions, each of which adds to "a" and "b" in separate calls, but in opposite orders. */
  lemma TwoAddsCanDeadlock(s: System, hash: Hash)
    requires Start(s) && hash("a") != hash("b")
    ensures CanDeadlock(s, map[0 := [[Some("a")], [Some("b")]], 1 := [[Some("b")], [Some("a")]]], hash)
  {
    var plans: map<nat, Plan> := map[0 := [[Some("a")], [Some("b")]], 1 := [[Some("b")], [Some("a")]]];
    TwoLocks("a", "b", hash);
    TwoLocks("b", "a", hash);
    CrossedPairsTangle(plans, hash, hash("a"), hash("b"));
    DeadlockIffTangled(s, plans, hash);
  }

  lemma TwoLocks(first: Key, second: Key, hash: Hash)
    ensures PlanLocks([[Some(first)], [Some(second)]], hash) == [hash(first), hash(second)]
  {
    OneLock(first, hash);
    OneLock(second, hash);
    var plan: Plan := [[Some(first)], [Some(second)]];
    assert plan[1..] == [[Some(second)]] && plan[1..][1..] == [];
    assert PlanLocks(plan[1..], hash) == KeyLocks([Some(second)], hash) + [];
  }

  lemma OneLock(key: Key, hash: Hash)
    ensures KeyLocks([Some(key)], hash) == [hash(key)]
  {
    var messages := [Some(key)];
    var locks := KeyLocks(messages, hash);
    assert messages[0].Some?;
    assert hash(key) in locks;
    forall i | 0 <= i < |locks|
      ensures locks[i] == hash(key)
    {
      assert locks[i] in locks;
    }
    assert |locks| == 1;
  }
}

/**
 Concurrent producers. A transaction calls `add` any number of times. Each call takes one advisory
 lock per message key, in ascending order, then numbers its rows from the shared sequence. Locks are
 kept until the transaction commits or rolls back, and taking one again that it already holds does
 not wait. Steps of different transactions interleave freely.
 */
module Producers {
  import opened Common

  type Key = string

  /** One lock per key: the first 32 bits of the key's hash. Distinct keys may share a lock. */
  type Hash = Key -> int

  function LocksOf(messages: seq<Option<Key>>, hash: Hash): (r: set<int>)
    ensures forall i :: 0 <= i < |messages| && messages[i].Some? ==> hash(messages[i].value) in r
  {
    set i | 0 <= i < |messages| && messages[i].Some? :: hash(messages[i].value)
  }

  /** The lock list of `add`: no repetition, ascending. */
  function KeyLocks(messages: seq<Option<Key>>, hash: Hash): (r: seq<int>)
    ensures Ascending(r)
    ensures forall i :: 0 <= i < |messages| && messages[i].Some? ==> hash(messages[i].value) in r
    ensures forall lock :: lock in r ==> exists i :: 0 <= i < |messages| && messages[i].Some? && hash(messages[i].value) == lock
  {
    SortedOf(LocksOf(messages, hash))
  }

  /** `messages` are the keys of the messages added so far; `locks` what their calls take, `held` how many of those. */
  datatype Tx = Tx(messages: seq<Option<Key>>, locks: seq<int>, held: nat, drawn: seq<int>, active: bool)

  /** A row other connections can see. */
  datatype Visible = Visible(key: Option<Key>, number: int)

  /** `log` lists the visible rows in the order they became visible. */
  datatype System = System(txs: map<nat, Tx>, next: int, log: seq<Visible>)

  predicate Holds(s: System, t: nat, lock: int)
    requires t in s.txs
  {
    s.txs[t].active && s.txs[t].held <= |s.txs[t].locks| && lock in s.txs[t].locks[..s.txs[t].held]
  }

  /** The lock the transaction asks for next. */
  predicate Asking(s: System, t: nat)
    requires t in s.txs
  {
    s.txs[t].active && s.txs[t].held < |s.txs[t].locks|
  }

  function Wanted(s: System, t: nat): int
    requires t in s.txs && Asking(s, t)
  {
    s.txs[t].locks[s.txs[t].held]
  }

  ghost predicate WaitsFor(s: System, t: nat, u: nat) {
    t in s.txs && u in s.txs && t != u && Asking(s, t) && Holds(s, u, Wanted(s, t))
  }

  ghost predicate Blocked(s: System, t: nat) {
    exists u :: u in s.txs && WaitsFor(s, t, u)
  }

  datatype Event =
    | Begin(t: nat)
    | Add(t: nat, messages: seq<Option<Key>>)
    | Acquire(t: nat)
    | Draw(t: nat)
    | Commit(t: nat)
    | Rollback(t: nat)

  /** Between two calls of `add`. */
  predicate Idle(tx: Tx) {
    tx.active && tx.held == |tx.locks| && |tx.drawn| == |tx.messages|
  }

  ghost predicate Enabled(s: System, e: Event) {
    match e
    case Begin(t) => t !in s.txs
    case Add(t, _) => t in s.txs && Idle(s.txs[t])
    case Acquire(t) => t in s.txs && Asking(s, t) && !Blocked(s, t)
    case Draw(t) =>
      t in s.txs && s.txs[t].active && s.txs[t].held == |s.txs[t].locks| && |s.txs[t].drawn| < |s.txs[t].messages|
    case Commit(t) => t in s.txs && Idle(s.txs[t])
    case Rollback(t) => t in s.txs && s.txs[t].active
  }

  function RowsOf(messages: seq<Option<Key>>, drawn: seq<int>): (r: seq<Visible>)
    requires |drawn| == |messages|
    ensures |r| == |drawn|
    ensures forall i :: 0 <= i < |r| ==> r[i] == Visible(messages[i], drawn[i])
  {
    seq(|drawn|, i requires 0 <= i < |drawn| => Visible(messages[i], drawn[i]))
  }

  ghost function Next(s: System, e: Event, hash: Hash): System
    requires Enabled(s, e)
  {
    match e
    case Begin(t) =>
      s.(txs := s.txs[t := Tx([], [], 0, [], true)])
    case Add(t, messages) =>
      var tx := s.txs[t];
      s.(txs := s.txs[t := tx.(messages := tx.messages + messages, locks := tx.locks + KeyLocks(messages, hash))])
    case Acquire(t) =>
      s.(txs := s.txs[t := s.txs[t].(held := s.txs[t].held + 1)])
    case Draw(t) =>
      s.(txs := s.txs[t := s.txs[t].(drawn := s.txs[t].drawn + [s.next])], next := s.next + 1)
    case Commit(t) =>
      s.(txs := s.txs[t := s.txs[t].(active := false)], log := s.log + RowsOf(s.txs[t].messages, s.txs[t].drawn))
    case Rollback(t) =>
      s.(txs := s.txs[t := s.txs[t].(active := false)])
  }

  ghost predicate Reachable(s: System, events: seq<Event>, hash: Hash, end: System)
    decreases |events|
  {
    if events == [] then s == end
    else Enabled(s, events[0]) && Reachable(Next(s, events[0], hash), events[1..], hash, end)
  }

  // ---------------------------------------------------------------- invariant

  ghost predicate TxOk(tx: Tx, next: int, hash: Hash) {
    && tx.held <= |tx.locks|
    && (forall i :: 0 <= i < |tx.messages| && tx.messages[i].Some? ==> hash(tx.messages[i].value) in tx.locks)
    && |tx.drawn| <= |tx.messages|
    && (forall i :: 0 <= i < |tx.drawn| && tx.messages[i].Some? ==> hash(tx.messages[i].value) in tx.locks[..tx.held])
    && Ascending(tx.drawn)
    && (forall i :: 0 <= i < |tx.drawn| ==> tx.drawn[i] < next)
  }

  /** No two active transactions hold the same lock. */
  ghost predicate Exclusive(s: System) {
    forall t, u, lock :: t in s.txs && u in s.txs && Holds(s, t, lock) && Holds(s, u, lock) ==> t == u
  }

  /** The visible rows of a key are numbered in the order they became visible. */
  ghost predicate CommitOrdered(log: seq<Visible>) {
    forall i, j :: 0 <= i < j < |log| && log[i].key.Some? && log[i].key == log[j].key ==> log[i].number < log[j].number
  }

  /** A number already drawn but not committed is greater than every visible number of its key. */
  ghost predicate PendingAfterVisible(s: System) {
    forall t, i, j | t in s.txs && s.txs[t].active && 0 <= i < |s.txs[t].drawn| && i < |s.txs[t].messages| &&
                     0 <= j < |s.log| && s.txs[t].messages[i].Some? && s.log[j].key == s.txs[t].messages[i] ::
      s.log[j].number < s.txs[t].drawn[i]
  }

  ghost predicate TxsOk(s: System, hash: Hash) {
    forall t :: t in s.txs ==> TxOk(s.txs[t], s.next, hash)
  }

  ghost predicate LogBelow(log: seq<Visible>, next: int) {
    forall j :: 0 <= j < |log| ==> log[j].number < next
  }

  ghost predicate Good(s: System, hash: Hash) {
    && TxsOk(s, hash)
    && LogBelow(s.log, s.next)
    && Exclusive(s)
    && CommitOrdered(s.log)
    && PendingAfterVisible(s)
  }

  lemma FewerLocksStayExclusive(s: System, s': System)
    requires Exclusive(s)
    requires forall u, lock :: u in s'.txs && Holds(s', u, lock) ==> u in s.txs && Holds(s, u, lock)
    ensures Exclusive(s')
  {
  }

  lemma AcquireKeepsGood(s: System, t: nat, hash: Hash)
    requires Good(s, hash) && Enabled(s, Acquire(t))
    ensures Good(Next(s, Acquire(t), hash), hash)
  {
    var s' := Next(s, Acquire(t), hash);
    var tx := s.txs[t];
    assert tx.locks[..tx.held + 1] == tx.locks[..tx.held] + [Wanted(s, t)];
    forall a, lock | a in s'.txs && a != t && Holds(s', a, lock)
      ensures Holds(s, a, lock) && lock != Wanted(s, t)
    {
      assert !WaitsFor(s, t, a);
    }
    assert forall lock :: Holds(s', t, lock) ==> Holds(s, t, lock) || lock == Wanted(s, t);
  }

  lemma DrawKeepsTxsOk(s: System, t: nat, hash: Hash)
    requires Good(s, hash) && Enabled(s, Draw(t))
    ensures TxsOk(Next(s, Draw(t), hash), hash)
  {
    var s' := Next(s, Draw(t), hash);
    var tx := s.txs[t];
    assert tx.locks[..tx.held] == tx.locks;
    forall u | u in s'.txs
      ensures TxOk(s'.txs[u], s'.next, hash)
    {
      assert TxOk(s.txs[u], s.next, hash);
    }
  }

  lemma DrawKeepsGood(s: System, t: nat, hash: Hash)
    requires Good(s, hash) && Enabled(s, Draw(t))
    ensures Good(Next(s, Draw(t), hash), hash)
  {
    var s' := Next(s, Draw(t), hash);
    DrawKeepsTxsOk(s, t, hash);
    FewerLocksStayExclusive(s, s');
  }

  /** Only the holder of a key's lock has numbers of that key pending. */
  lemma PendingKeyIsLocked(s: System, t: nat, i: nat, hash: Hash)
    requires Good(s, hash) && t in s.txs && s.txs[t].active
    requires i < |s.txs[t].drawn| && i < |s.txs[t].messages| && s.txs[t].messages[i].Some?
    ensures Holds(s, t, hash(s.txs[t].messages[i].value))
  {
    assert TxOk(s.txs[t], s.next, hash);
  }

  lemma CommitKeepsOrder(s: System, t: nat, hash: Hash)
    requires Good(s, hash) && Enabled(s, Commit(t))
    ensures CommitOrdered(Next(s, Commit(t), hash).log)
    ensures LogBelow(Next(s, Commit(t), hash).log, s.next)
  {
    var tx := s.txs[t];
    assert TxOk(tx, s.next, hash);
    var rows := RowsOf(tx.messages, tx.drawn);
    var log := s.log + rows;
    forall i, j | 0 <= i < j < |log| && log[i].key.Some? && log[i].key == log[j].key
      ensures log[i].number < log[j].number
    {
      if i < |s.log| <= j {
        assert log[j] == Visible(tx.messages[j - |s.log|], tx.drawn[j - |s.log|]);
      }
    }
  }

  /** Two transactions never have numbers of one key pending at the same time. */
  lemma PendingKeysDiffer(s: System, t: nat, k: nat, u: nat, i: nat, hash: Hash)
    requires Good(s, hash) && t != u && t in s.txs && s.txs[t].active && u in s.txs && s.txs[u].active
    requires k < |s.txs[t].drawn| && k < |s.txs[t].messages|
    requires i < |s.txs[u].drawn| && i < |s.txs[u].messages| && s.txs[u].messages[i].Some?
    ensures s.txs[t].messages[k] != s.txs[u].messages[i]
  {
    PendingKeyIsLocked(s, u, i, hash);
    if s.txs[t].messages[k].Some? {
      PendingKeyIsLocked(s, t, k, hash);
    }
  }

  lemma CommitKeepsPending(s: System, t: nat, hash: Hash)
    requires Good(s, hash) && Enabled(s, Commit(t))
    ensures PendingAfterVisible(Next(s, Commit(t), hash))
  {
    var s' := Next(s, Commit(t), hash);
    var tx := s.txs[t];
    assert TxOk(tx, s.next, hash);
    assert forall j :: |s.log| <= j < |s'.log| ==>
             s'.log[j] == Visible(tx.messages[j - |s.log|], tx.drawn[j - |s.log|]);
    forall u, i, j | u in s'.txs && s'.txs[u].active && 0 <= i < |s'.txs[u].drawn| && i < |s'.txs[u].messages| &&
                     0 <= j < |s'.log| && s'.txs[u].messages[i].Some? && s'.log[j].key == s'.txs[u].messages[i]
      ensures s'.log[j].number < s'.txs[u].drawn[i]
    {
      assert u != t && s'.txs[u] == s.txs[u];
      if |s.log| <= j {
        PendingKeysDiffer(s, t, j - |s.log|, u, i, hash);
      }
    }
  }

  lemma CommitKeepsGood(s: System, t: nat, hash: Hash)
    requires Good(s, hash) && Enabled(s, Commit(t))
    ensures Good(Next(s, Commit(t), hash), hash)
  {
    CommitKeepsOrder(s, t, hash);
    CommitKeepsPending(s, t, hash);
    FewerLocksStayExclusive(s, Next(s, Commit(t), hash));
  }

  lemma BeginKeepsGood(s: System, t: nat, hash: Hash)
    requires Good(s, hash) && Enabled(s, Begin(t))
    ensures Good(Next(s, Begin(t), hash), hash)
  {
    FewerLocksStayExclusive(s, Next(s, Begin(t), hash));
  }

  lemma AddKeepsTxOk(tx: Tx, messages: seq<Option<Key>>, next: int, hash: Hash)
    requires TxOk(tx, next, hash)
    ensures var tx' := tx.(messages := tx.messages + messages, locks := tx.locks + KeyLocks(messages, hash));
            TxOk(tx', next, hash) && tx'.locks[..tx'.held] == tx.locks[..tx.held]
  {
    var all, locks := tx.messages + messages, tx.locks + KeyLocks(messages, hash);
    forall i | 0 <= i < |all| && all[i].Some?
      ensures hash(all[i].value) in locks
    {
      if |tx.messages| <= i {
        assert all[i] == messages[i - |tx.messages|];
      }
    }
    assert locks[..tx.held] == tx.locks[..tx.held];
  }

  lemma AddKeepsGood(s: System, t: nat, messages: seq<Option<Key>>, hash: Hash)
    requires Good(s, hash) && Enabled(s, Add(t, messages))
    ensures Good(Next(s, Add(t, messages), hash), hash)
  {
    var s' := Next(s, Add(t, messages), hash);
    AddKeepsTxOk(s.txs[t], messages, s.next, hash);
    forall u, lock | u in s'.txs && Holds(s', u, lock)
      ensures u in s.txs && Holds(s, u, lock)
    {
      assert TxOk(s.txs[u], s.next, hash);
    }
    FewerLocksStayExclusive(s, s');
  }

  lemma RollbackKeepsGood(s: System, t: nat, hash: Hash)
    requires Good(s, hash) && Enabled(s, Rollback(t))
    ensures Good(Next(s, Rollback(t), hash), hash)
  {
    FewerLocksStayExclusive(s, Next(s, Rollback(t), hash));
  }

  lemma StepKeepsGood(s: System, e: Event, hash: Hash)
    requires Good(s, hash) && Enabled(s, e)
    ensures Good(Next(s, e, hash), hash)
  {
    match e
    case Begin(t) => BeginKeepsGood(s, t, hash);
    case Add(t, messages) => AddKeepsGood(s, t, messages, hash);
    case Acquire(t) => AcquireKeepsGood(s, t, hash);
    case Draw(t) => DrawKeepsGood(s, t, hash);
    case Commit(t) => CommitKeepsGood(s, t, hash);
    case Rollback(t) => RollbackKeepsGood(s, t, hash);
  }

  /** A start with no transaction running and rows already in commit order. */
  ghost predicate Start(s: System) {
    s.txs == map[] && CommitOrdered(s.log) && forall j :: 0 <= j < |s.log| ==> s.log[j].number < s.next
  }

  lemma {:induction false} GoodAlongRuns(s: System, events: seq<Event>, hash: Hash, end: System)
    requires Good(s, hash) && Reachable(s, events, hash, end)
    ensures Good(end, hash)
    decreases |events|
  {
    if events != [] {
      StepKeepsGood(s, events[0], hash);
      GoodAlongRuns(Next(s, events[0], hash), events[1..], hash, end);
    }
  }

  /**
   Numbers of a key increase in commit order, and whatever is visible of a key was numbered before
   everything of that key that is drawn and not committed, so a claim never runs ahead of it.
   */
  lemma NumbersFollowCommitOrder(s: System, events: seq<Event>, hash: Hash, end: System)
    requires Start(s) && Reachable(s, events, hash, end)
    ensures CommitOrdered(end.log)
    ensures PendingAfterVisible(end)
  {
    GoodAlongRuns(s, events, hash, end);
  }

  // ---------------------------------------------------------------- what becomes visible

  /** The keys of the messages that transaction `t` added, in order. */
  function KeysAdded(events: seq<Event>, t: nat): seq<Option<Key>> {
    if events == [] then []
    else (if events[0].Add? && events[0].t == t then events[0].messages else []) + KeysAdded(events[1..], t)
  }

  function KeysIn(s: System, t: nat): seq<Option<Key>> {
    if t in s.txs then s.txs[t].messages else []
  }

  lemma {:induction false} AddedIsKept(s: System, events: seq<Event>, hash: Hash, end: System, t: nat)
    requires Reachable(s, events, hash, end)
    ensures KeysIn(end, t) == KeysIn(s, t) + KeysAdded(events, t)
    decreases |events|
  {
    if events != [] {
      var next := Next(s, events[0], hash);
      AddedIsKept(next, events[1..], hash, end, t);
      assert KeysIn(next, t) == KeysIn(s, t) + if events[0].Add? && events[0].t == t then events[0].messages else [];
    }
  }

  /** What a commit makes visible: the rows of all the messages added, in order, each with a number of its own. */
  lemma CommitShowsAll(s: System, t: nat, hash: Hash) returns (rows: seq<Visible>)
    requires Good(s, hash) && Enabled(s, Commit(t))
    ensures Next(s, Commit(t), hash).log == s.log + rows && |rows| == |s.txs[t].messages|
    ensures forall i :: 0 <= i < |rows| ==> rows[i].key == s.txs[t].messages[i]
    ensures forall i, j :: 0 <= i < j < |rows| ==> rows[i].number < rows[j].number
  {
    assert TxOk(s.txs[t], s.next, hash);
    rows := RowsOf(s.txs[t].messages, s.txs[t].drawn);
  }

  /** Nothing else shows anything: rows of a transaction that rolls back are never seen. */
  lemma OnlyCommitsShow(s: System, e: Event, hash: Hash)
    requires Enabled(s, e) && !e.Commit?
    ensures Next(s, e, hash).log == s.log
  {
  }

  /** And a transaction that is over keeps no lock, and never shows anything again. */
  lemma OverIsOver(s: System, e: Event, t: nat, hash: Hash)
    requires Enabled(s, e) && t in s.txs && !s.txs[t].active
    ensures t in Next(s, e, hash).txs && Next(s, e, hash).txs[t] == s.txs[t] && e != Commit(t)
    ensures forall lock :: !Holds(s, t, lock)
  {
  }

  lemma CommitAndRollbackEnd(s: System, t: nat, hash: Hash)
    requires t in s.txs
    ensures Enabled(s, Commit(t)) ==> !Next(s, Commit(t), hash).txs[t].active
    ensures Enabled(s, Rollback(t)) ==> !Next(s, Rollback(t), hash).txs[t].active
  {
  }
}

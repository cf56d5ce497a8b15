/**
 The transactional outbox store: live rows, dead letters, and the SQL statements that move
 messages between them. Each statement is one atomic step; a claim is four statements of one
 transaction, and statements of other connections may run between any two of them.
 */
module Outbox {
  import opened Common

  datatype Failure = Failure(error: string, at: int)

  datatype Message = Message(id: string, topic: string, payload: string, key: Option<string>, createdAt: int)

  /** A row of `outbox_messages`; its primary key `seq` is the key of the table's map. */
  datatype Row = Row(
    message: Message,
    availableAt: int,
    attempts: int,
    lastError: Option<string>,
    history: seq<Failure>,
    leaseOwner: Option<string>,
    leaseUntil: Option<int>)

  /** A row of `outbox_dead_letters`, which keeps the number the message had. */
  datatype DeadLetter = DeadLetter(
    message: Message,
    number: int,
    attempts: int,
    lastError: Option<string>,
    history: seq<Failure>,
    reason: string,
    failedAt: int)

  type Table = map<int, Row>

  datatype Store = Store(live: Table, dead: map<string, DeadLetter>)

  /** What a producer inserts; the other columns take their defaults. */
  datatype Incoming = Incoming(message: Message, availableAt: int)

  /** The message a claim hands to its relay. */
  datatype Delivery = Delivery(message: Message, availableAt: int, attempts: int, lastError: Option<string>)

  datatype Filter = Filter(
    ids: Option<set<string>>,
    topic: Option<string>,
    key: Option<string>,
    failedBefore: Option<int>,
    all: bool)

  datatype Statement =
    | Add(rows: map<int, Incoming>)
    | Publish(id: string, owner: string)
    | Reschedule(id: string, owner: string, attempts: int, availableAt: int, failure: Failure)
    | Bury(id: string, owner: string, attempts: int, failure: Failure, reason: string, failedAt: int)
    | Release(ids: set<string>, owner: string)
    | Requeue(filter: Filter, now: int)
    | Purge(filter: Filter)
    | Lease(numbers: set<int>, owner: string, until: int)
    | Unlease(numbers: set<int>)

  // ---------------------------------------------------------------- single statements

  /** UNIQUE (id) on `outbox_messages`. */
  ghost predicate UniqueIds(live: Table) {
    forall a, b :: a in live && b in live && live[a].message.id == live[b].message.id ==> a == b
  }

  function LeasedBy(live: Table, id: string, owner: string): set<int> {
    set n | n in live && live[n].message.id == id && live[n].leaseOwner == Some(owner)
  }

  function Unleased(r: Row): Row {
    r.(leaseOwner := None, leaseUntil := None)
  }

  function NewRow(m: Incoming): Row {
    Row(m.message, m.availableAt, 0, None, [], None, None)
  }

  function NewRows(rows: map<int, Incoming>): (r: Table)
    ensures r.Keys == rows.Keys
    ensures forall n :: n in r ==> r[n] == NewRow(rows[n])
  {
    map n | n in rows :: NewRow(rows[n])
  }

  function Revived(d: DeadLetter, now: int): Row {
    Row(d.message, now, 0, d.lastError, d.history, None, None)
  }

  function Buried(n: int, r: Row, attempts: int, failure: Failure, reason: string, failedAt: int): DeadLetter {
    DeadLetter(r.message, n, attempts, Some(failure.error), r.history + [failure], reason, failedAt)
  }

  predicate EmptyFilter(f: Filter) {
    f.ids.None? && f.topic.None? && f.key.None? && f.failedBefore.None?
  }

  /** An empty filter is refused unless it says `all`. */
  predicate Refused(f: Filter) {
    EmptyFilter(f) && !f.all
  }

  predicate Matches(f: Filter, d: DeadLetter) {
    && (f.ids.Some? ==> d.message.id in f.ids.value)
    && (f.topic.Some? ==> d.message.topic == f.topic.value)
    && (f.key.Some? ==> d.message.key == f.key)
    && (f.failedBefore.Some? ==> d.failedAt < f.failedBefore.value)
  }

  function Selected(dead: map<string, DeadLetter>, f: Filter): set<string> {
    if Refused(f) then {} else set i | i in dead && Matches(f, dead[i])
  }

  predicate InsertAccepted(live: Table, rows: map<int, Incoming>) {
    && rows.Keys !! live.Keys
    && (forall a, b :: a in rows && b in live ==> rows[a].message.id != live[b].message.id)
    && (forall a, b :: a in rows && b in rows && rows[a].message.id == rows[b].message.id ==> a == b)
  }

  predicate RequeueAccepted(s: Store, ids: set<string>)
    requires ids <= s.dead.Keys
  {
    && (forall i :: i in ids ==> s.dead[i].number !in s.live)
    && (forall i, n :: i in ids && n in s.live ==> s.dead[i].message.id != s.live[n].message.id)
    && (forall i, j :: i in ids && j in ids && s.dead[i].number == s.dead[j].number ==> i == j)
    && (forall i, j :: i in ids && j in ids && s.dead[i].message.id == s.dead[j].message.id ==> i == j)
  }

  function RevivedRows(dead: map<string, DeadLetter>, ids: set<string>, now: int): (r: Table)
    requires ids <= dead.Keys
    requires forall i, j :: i in ids && j in ids && dead[i].number == dead[j].number ==> i == j
    ensures forall i :: i in ids ==> dead[i].number in r && r[dead[i].number] == Revived(dead[i], now)
    ensures forall n :: n in r ==> exists i :: i in ids && dead[i].number == n
  {
    map i | i in ids :: dead[i].number := Revived(dead[i], now)
  }

  function Rewrite(live: Table, hit: set<int>, f: Row -> Row): (r: Table)
    ensures r.Keys == live.Keys
    ensures forall n :: n in live ==> r[n] == if n in hit then f(live[n]) else live[n]
  {
    map n | n in live :: if n in hit then f(live[n]) else live[n]
  }

  function LeaseRows(live: Table, numbers: set<int>, owner: string, until: int): Table {
    Rewrite(live, numbers, (r: Row) => r.(leaseOwner := Some(owner), leaseUntil := Some(until)))
  }

  /** One statement (or one transaction of a delete and an insert). A refused insert rolls back. */
  function Step(s: Store, st: Statement): Store {
    match st
    case Add(rows) =>
      if InsertAccepted(s.live, rows) then s.(live := s.live + NewRows(rows)) else s
    case Publish(id, owner) =>
      s.(live := s.live - LeasedBy(s.live, id, owner))
    case Reschedule(id, owner, attempts, availableAt, failure) =>
      s.(live := Rewrite(s.live, LeasedBy(s.live, id, owner),
      (r: Row) => Unleased(r.(attempts := attempts, availableAt := availableAt,
      lastError := Some(failure.error), history := r.history + [failure]))))
    case Bury(id, owner, attempts, failure, reason, failedAt) =>
      var hit := LeasedBy(s.live, id, owner);
      if hit == {} then s
      else
        var n := Least(hit);
        Store(s.live - hit, s.dead[id := Buried(n, s.live[n], attempts, failure, reason, failedAt)])
    case Release(ids, owner) =>
      var hit := set n | n in s.live && s.live[n].leaseOwner == Some(owner) && s.live[n].message.id in ids;
      s.(live := Rewrite(s.live, hit, Unleased))
    case Requeue(filter, now) =>
      var ids := Selected(s.dead, filter);
      if ids != {} && RequeueAccepted(s, ids) then
        Store(s.live + RevivedRows(s.dead, ids, now), s.dead - ids)
      else s
    case Purge(filter) =>
      s.(dead := s.dead - Selected(s.dead, filter))
    case Lease(numbers, owner, until) =>
      s.(live := LeaseRows(s.live, numbers, owner, until))
    case Unlease(numbers) =>
      s.(live := Rewrite(s.live, numbers, Unleased))
  }

  lemma RequeueKeepsUniqueIds(s: Store, ids: set<string>, now: int)
    requires UniqueIds(s.live) && ids <= s.dead.Keys && RequeueAccepted(s, ids)
    ensures UniqueIds(s.live + RevivedRows(s.dead, ids, now))
  {
    var t := s.live + RevivedRows(s.dead, ids, now);
    forall a, b | a in t && b in t && t[a].message.id == t[b].message.id
      ensures a == b
    {
      if a !in RevivedRows(s.dead, ids, now) && b !in RevivedRows(s.dead, ids, now) {
        assert a in s.live && b in s.live;
      }
    }
  }

  lemma InsertKeepsUniqueIds(live: Table, rows: map<int, Incoming>)
    requires UniqueIds(live) && InsertAccepted(live, rows)
    ensures UniqueIds(live + NewRows(rows))
  {
  }

  /** Only inserts bring new rows, and no statement changes the message of a row it keeps. */
  lemma StepKeepsMessages(s: Store, st: Statement)
    requires !st.Add? && !st.Requeue?
    ensures forall n :: n in Step(s, st).live ==> n in s.live && Step(s, st).live[n].message == s.live[n].message
  {
  }

  lemma FewerStayUnique(live: Table, live': Table)
    requires UniqueIds(live)
    requires forall n :: n in live' ==> n in live && live'[n].message == live[n].message
    ensures UniqueIds(live')
  {
  }

  lemma RequeueStepKeepsUniqueIds(s: Store, filter: Filter, now: int)
    requires UniqueIds(s.live)
    ensures UniqueIds(Step(s, Requeue(filter, now)).live)
  {
    var ids := Selected(s.dead, filter);
    if ids != {} && RequeueAccepted(s, ids) {
      RequeueKeepsUniqueIds(s, ids, now);
    }
  }

  /** The unique index on `id` holds after every statement. */
  lemma StepKeepsUniqueIds(s: Store, st: Statement)
    requires UniqueIds(s.live)
    ensures UniqueIds(Step(s, st).live)
  {
    match st
    case Add(rows) =>
      if InsertAccepted(s.live, rows) {
        InsertKeepsUniqueIds(s.live, rows);
      }
    case Requeue(filter, now) => RequeueStepKeepsUniqueIds(s, filter, now);
    case _ =>
      StepKeepsMessages(s, st);
      FewerStayUnique(s.live, Step(s, st).live);
  }

  function Run(s: Store, sts: seq<Statement>): Store
    decreases |sts|
  {
    if sts == [] then s else Run(Step(s, sts[0]), sts[1..])
  }

  // ---------------------------------------------------------------- beside a claim

  /** The rows a statement updates or deletes, so the row locks it needs. */
  function Touches(s: Store, st: Statement): set<int> {
    match st
    case Publish(id, owner) => LeasedBy(s.live, id, owner)
    case Reschedule(id, owner, _, _, _) => LeasedBy(s.live, id, owner)
    case Bury(id, owner, _, _, _, _) => LeasedBy(s.live, id, owner)
    case Release(ids, owner) =>
      set n | n in s.live && s.live[n].leaseOwner == Some(owner) && s.live[n].message.id in ids
    case _ => {}
  }

  /**
   A statement of another connection while a claim holds row locks on `locked`: it waits (here:
   does not happen yet) when it needs one of those rows, and so does any other claim, because
   claims take turns on an advisory lock.
   */
  function StepBeside(s: Store, st: Statement, locked: set<int>): Store {
    if !st.Lease? && !st.Unlease? && Touches(s, st) !! locked then Step(s, st) else s
  }

  function RunBeside(s: Store, sts: seq<Statement>, locked: set<int>): Store
    decreases |sts|
  {
    if sts == [] then s else RunBeside(StepBeside(s, sts[0], locked), sts[1..], locked)
  }

  /** A bystander's statement leaves the rows it does not touch as they are, and leases nothing. */
  ghost predicate MildStep(s: Store, t: Store, touched: set<int>) {
    && (forall n :: n in s.live && n !in touched ==> n in t.live && t.live[n] == s.live[n])
    && (forall n :: n in t.live && t.live[n].leaseOwner.Some? ==>
          n in s.live && t.live[n].leaseOwner == s.live[n].leaseOwner && t.live[n].message == s.live[n].message)
  }

  lemma StepIsMild(s: Store, st: Statement)
    requires !st.Lease? && !st.Unlease?
    ensures MildStep(s, Step(s, st), Touches(s, st))
  {
    match st
    case Add(rows) =>
    case Publish(id, owner) =>
    case Reschedule(id, owner, attempts, availableAt, failure) =>
    case Bury(id, owner, attempts, failure, reason, failedAt) =>
    case Release(ids, owner) =>
    case Requeue(filter, now) =>
    case Purge(filter) =>
  }

  lemma {:induction false} RunBesideIsMild(s: Store, sts: seq<Statement>, locked: set<int>)
    requires forall n :: n in locked ==> n in s.live
    ensures var t := RunBeside(s, sts, locked);
            && (forall n :: n in locked ==> n in t.live && t.live[n] == s.live[n])
            && (forall n :: n in t.live && t.live[n].leaseOwner.Some? ==>
                  n in s.live && t.live[n].leaseOwner == s.live[n].leaseOwner && t.live[n].message == s.live[n].message)
    decreases |sts|
  {
    if sts != [] {
      var t := StepBeside(s, sts[0], locked);
      assert MildStep(s, t, s.live.Keys - locked) by {
        if !sts[0].Lease? && !sts[0].Unlease? {
          StepIsMild(s, sts[0]);
        }
      }
      RunBesideIsMild(t, sts[1..], locked);
    }
  }
}

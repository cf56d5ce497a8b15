/**
 Every message that was ever committed, followed through any run of statements: it is in exactly
 one place, and it keeps its number.
 */
module OutboxHistory {
  import opened Common
  import opened Outbox

  /** The store, and what happened to the messages that left it. `number` maps each committed id. */
  datatype World = World(store: Store, number: map<string, int>, published: set<string>, purged: set<string>)

  function Numbering(rows: map<int, Incoming>): (r: map<string, int>)
    requires forall a, b :: a in rows && b in rows && rows[a].message.id == rows[b].message.id ==> a == b
    ensures forall n :: n in rows ==> rows[n].message.id in r && r[rows[n].message.id] == n
    ensures forall i :: i in r ==> r[i] in rows && rows[r[i]].message.id == i
  {
    map n | n in rows :: rows[n].message.id := n
  }

  function WorldStep(w: World, st: Statement): World {
    var next := Step(w.store, st);
    match st
    case Add(rows) =>
      if InsertAccepted(w.store.live, rows) then w.(store := next, number := w.number + Numbering(rows)) else w
    case Publish(id, owner) =>
      w.(store := next,
      published := if LeasedBy(w.store.live, id, owner) == {} then w.published else w.published + {id})
    case Purge(filter) =>
      w.(store := next, purged := w.purged + Selected(w.store.dead, filter))
    case _ =>
      w.(store := next)
  }

  function WorldRun(w: World, sts: seq<Statement>): World
    decreases |sts|
  {
    if sts == [] then w else WorldRun(WorldStep(w, sts[0]), sts[1..])
  }

  ghost predicate LiveAt(w: World, i: string) {
    i in w.number && w.number[i] in w.store.live && w.store.live[w.number[i]].message.id == i
  }

  ghost predicate ExactlyOne(a: bool, b: bool, c: bool, d: bool) {
    (a || b || c || d) && !(a && b) && !(a && c) && !(a && d) && !(b && c) && !(b && d) && !(c && d)
  }

  ghost predicate NumberedRight(w: World) {
    && (forall n :: n in w.store.live ==>
          w.store.live[n].message.id in w.number && w.number[w.store.live[n].message.id] == n)
    && (forall i :: i in w.store.dead ==>
          i in w.number && w.number[i] == w.store.dead[i].number && w.store.dead[i].message.id == i)
    && w.published <= w.number.Keys && w.purged <= w.number.Keys
  }

  ghost predicate NumbersDiffer(number: map<string, int>) {
    forall i, j :: i in number && j in number && number[i] == number[j] ==> i == j
  }

  /** Each committed message is live, dead-lettered, published or purged, and only one of these. */
  ghost predicate Accounted(w: World) {
    && NumberedRight(w)
    && NumbersDiffer(w.number)
    && (forall i :: i in w.number ==>
          ExactlyOne(LiveAt(w, i), i in w.store.dead, i in w.published, i in w.purged))
  }

  /** Producers never reuse an id, and the sequence never repeats a number. */
  ghost predicate NeverReused(w: World, st: Statement) {
    st.Add? ==>
      forall n :: n in st.rows ==> st.rows[n].message.id !in w.number && forall i :: i in w.number ==> w.number[i] != n
  }

  ghost predicate NeverReusedIn(w: World, sts: seq<Statement>)
    decreases |sts|
  {
    sts != [] ==> NeverReused(w, sts[0]) && NeverReusedIn(WorldStep(w, sts[0]), sts[1..])
  }

  /** Statements that neither add nor remove rows leave every message where it is. */
  lemma SameRowsStayAccounted(w: World, w': World)
    requires Accounted(w)
    requires w'.number == w.number && w'.published == w.published && w'.purged == w.purged
    requires w'.store.dead == w.store.dead && w'.store.live.Keys == w.store.live.Keys
    requires forall n :: n in w.store.live ==> w'.store.live[n].message == w.store.live[n].message
    ensures Accounted(w')
  {
    assert forall n :: n in w'.store.live <==> n in w.store.live;
    assert forall i :: LiveAt(w', i) <==> LiveAt(w, i);
  }

  lemma AddKeepsNumbersDifferent(number: map<string, int>, rows: map<int, Incoming>)
    requires NumbersDiffer(number)
    requires forall a, b :: a in rows && b in rows && rows[a].message.id == rows[b].message.id ==> a == b
    requires forall n :: n in rows ==> rows[n].message.id !in number && forall i :: i in number ==> number[i] != n
    ensures NumbersDiffer(number + Numbering(rows))
  {
    var added := Numbering(rows);
    var all := number + added;
    forall i, j | i in all && j in all && all[i] == all[j]
      ensures i == j
    {
      if i in added && j in added {
        assert rows[added[i]].message.id == i && rows[added[j]].message.id == j;
      }
    }
  }

  lemma AddedRowsAreNumberedRight(w: World, rows: map<int, Incoming>, w': World)
    requires NumberedRight(w)
    requires InsertAccepted(w.store.live, rows) && NeverReused(w, Add(rows))
    requires w'.store == w.store.(live := w.store.live + NewRows(rows))
    requires w' == w.(store := w'.store, number := w.number + Numbering(rows))
    ensures NumberedRight(w')
  {
    forall n | n in w'.store.live
      ensures w'.store.live[n].message.id in w'.number && w'.number[w'.store.live[n].message.id] == n
    {
      if n !in rows {
        assert w'.store.live[n] == w.store.live[n];
      }
    }
  }

  lemma AddedRowsArePlaced(w: World, rows: map<int, Incoming>, w': World)
    requires Accounted(w)
    requires InsertAccepted(w.store.live, rows) && NeverReused(w, Add(rows))
    requires w'.store == w.store.(live := w.store.live + NewRows(rows))
    requires w' == w.(store := w'.store, number := w.number + Numbering(rows))
    ensures forall i :: i in w'.number ==>
              ExactlyOne(LiveAt(w', i), i in w'.store.dead, i in w'.published, i in w'.purged)
  {
    forall i | i in w'.number
      ensures ExactlyOne(LiveAt(w', i), i in w'.store.dead, i in w'.published, i in w'.purged)
    {
      if i in w.number {
        assert i !in Numbering(rows);
        assert LiveAt(w', i) <==> LiveAt(w, i);
      } else {
        assert LiveAt(w', i);
      }
    }
  }

  lemma AddStaysAccounted(w: World, rows: map<int, Incoming>)
    requires Accounted(w) && NeverReused(w, Add(rows))
    ensures Accounted(WorldStep(w, Add(rows)))
  {
    if InsertAccepted(w.store.live, rows) {
      var w' := WorldStep(w, Add(rows));
      AddedRowsAreNumberedRight(w, rows, w');
      AddedRowsArePlaced(w, rows, w');
      AddKeepsNumbersDifferent(w.number, rows);
    }
  }

  lemma PublishStaysAccounted(w: World, st: Statement)
    requires Accounted(w) && st.Publish?
    ensures Accounted(WorldStep(w, st))
  {
    var w' := WorldStep(w, st);
    var hit := LeasedBy(w.store.live, st.id, st.owner);
    if hit != {} {
      var n := Witness(hit);
      assert LiveAt(w, st.id);
      assert w'.store.live == w.store.live - hit;
      forall i | i in w'.number
        ensures ExactlyOne(LiveAt(w', i), i in w'.store.dead, i in w'.published, i in w'.purged)
      {
        assert LiveAt(w', i) <==> LiveAt(w, i) && i != st.id;
      }
    }
  }

  lemma BuryStaysAccounted(w: World, st: Statement)
    requires Accounted(w) && st.Bury?
    ensures Accounted(WorldStep(w, st))
  {
    var w' := WorldStep(w, st);
    var hit := LeasedBy(w.store.live, st.id, st.owner);
    if hit != {} {
      var n := Least(hit);
      assert forall m :: m in hit ==> m == n;
      assert LiveAt(w, st.id);
      assert w'.store.live == w.store.live - hit;
      assert w'.store.dead.Keys == w.store.dead.Keys + {st.id};
      forall i | i in w'.number
        ensures ExactlyOne(LiveAt(w', i), i in w'.store.dead, i in w'.published, i in w'.purged)
      {
        assert LiveAt(w', i) <==> LiveAt(w, i) && i != st.id;
      }
    }
  }

  /** Under the bookkeeping above a requeue is never refused. */
  lemma RequeueIsAccepted(w: World, ids: set<string>)
    requires Accounted(w) && ids <= w.store.dead.Keys
    ensures RequeueAccepted(w.store, ids)
  {
    forall i | i in ids
      ensures w.store.dead[i].number !in w.store.live
      ensures forall n :: n in w.store.live ==> w.store.dead[i].message.id != w.store.live[n].message.id
    {
      assert i in w.store.dead && !LiveAt(w, i);
    }
  }

  lemma RequeueStaysAccounted(w: World, st: Statement)
    requires Accounted(w) && st.Requeue?
    ensures Accounted(WorldStep(w, st))
    ensures forall i :: i in Selected(w.store.dead, st.filter) ==> LiveAt(WorldStep(w, st), i)
  {
    var w' := WorldStep(w, st);
    var ids := Selected(w.store.dead, st.filter);
    if ids != {} {
      RequeueIsAccepted(w, ids);
      var back := RevivedRows(w.store.dead, ids, st.now);
      assert w'.store.live == w.store.live + back && w'.store.dead == w.store.dead - ids;
      forall i | i in w'.number
        ensures LiveAt(w', i) <==> LiveAt(w, i) || i in ids
        ensures ExactlyOne(LiveAt(w', i), i in w'.store.dead, i in w'.published, i in w'.purged)
      {
        assert i in w'.store.dead <==> i in w.store.dead && i !in ids;
        if i in ids {
          assert w'.store.live[w.number[i]] == Revived(w.store.dead[i], st.now);
        } else {
          assert w.number[i] !in back;
        }
      }
    }
  }

  lemma PurgeStaysAccounted(w: World, st: Statement)
    requires Accounted(w) && st.Purge?
    ensures Accounted(WorldStep(w, st))
  {
    var w' := WorldStep(w, st);
    assert forall i :: LiveAt(w', i) <==> LiveAt(w, i);
  }

  lemma StepStaysAccounted(w: World, st: Statement)
    requires Accounted(w) && NeverReused(w, st)
    ensures Accounted(WorldStep(w, st))
    ensures w.number.Keys <= WorldStep(w, st).number.Keys
    ensures forall i :: i in w.number ==> WorldStep(w, st).number[i] == w.number[i]
  {
    match st
    case Add(rows) =>
      AddStaysAccounted(w, rows);
      if InsertAccepted(w.store.live, rows) {
        assert forall i :: i in w.number ==> i !in Numbering(rows);
      }
    case Publish(id, owner) => PublishStaysAccounted(w, st);
    case Bury(id, owner, attempts, failure, reason, failedAt) => BuryStaysAccounted(w, st);
    case Requeue(filter, now) => RequeueStaysAccounted(w, st);
    case Purge(filter) => PurgeStaysAccounted(w, st);
    case Reschedule(id, owner, attempts, availableAt, failure) => SameRowsStayAccounted(w, WorldStep(w, st));
    case Release(ids, owner) => SameRowsStayAccounted(w, WorldStep(w, st));
    case Lease(numbers, owner, until) => SameRowsStayAccounted(w, WorldStep(w, st));
    case Unlease(numbers) => SameRowsStayAccounted(w, WorldStep(w, st));
  }

  /** Over any run: nothing is lost or duplicated, and no message ever changes its number. */
  lemma {:induction false} EveryMessageIsInOnePlace(w: World, sts: seq<Statement>)
    requires Accounted(w) && NeverReusedIn(w, sts)
    ensures Accounted(WorldRun(w, sts))
    ensures w.number.Keys <= WorldRun(w, sts).number.Keys
    ensures forall i :: i in w.number ==> WorldRun(w, sts).number[i] == w.number[i]
    decreases |sts|
  {
    if sts != [] {
      StepStaysAccounted(w, sts[0]);
      EveryMessageIsInOnePlace(WorldStep(w, sts[0]), sts[1..]);
    }
  }

  /** The statements a relay runs as `owner`; none of them is a claim's. */
  predicate WrittenBy(st: Statement, owner: string) {
    match st
    case Publish(_, o) => o == owner
    case Reschedule(_, o, _, _, _) => o == owner
    case Bury(_, o, _, _, _, _) => o == owner
    case Release(_, o) => o == owner
    case Lease(_, _, _) => true
    case Unlease(_) => true
    case _ => false
  }

  /** Fencing: a leased row stays as it is through any run in which its owner and claims are idle. */
  lemma {:induction false} LeasedRowIsFenced(s: Store, sts: seq<Statement>, n: int, owner: string)
    requires n in s.live && s.live[n].leaseOwner == Some(owner)
    requires forall i :: 0 <= i < |sts| ==> !WrittenBy(sts[i], owner)
    ensures n in Run(s, sts).live && Run(s, sts).live[n] == s.live[n]
    decreases |sts|
  {
    if sts != [] {
      assert !WrittenBy(sts[0], owner);
      StepIsMild(s, sts[0]);
      assert n !in Touches(s, sts[0]);
      LeasedRowIsFenced(Step(s, sts[0]), sts[1..], n, owner);
    }
  }

  lemma BuryMovesTheRow(s: Store, n: int, owner: string, attempts: int, failure: Failure, reason: string, failedAt: int)
    requires UniqueIds(s.live) && n in s.live && s.live[n].leaseOwner == Some(owner)
    ensures Step(s, Bury(s.live[n].message.id, owner, attempts, failure, reason, failedAt)) ==
            Store(s.live - {n}, s.dead[s.live[n].message.id := Buried(n, s.live[n], attempts, failure, reason, failedAt)])
  {
    var hit := LeasedBy(s.live, s.live[n].message.id, owner);
    forall m | m in hit
      ensures m == n
    {
      assert s.live[m].message.id == s.live[n].message.id;
    }
    assert n in hit;
    assert hit == {n};
  }

  lemma RequeueRestoresTheRow(s: Store, id: string, now: int)
    requires id in s.dead && forall i :: i in s.dead ==> s.dead[i].message.id == i
    requires s.dead[id].number !in s.live
    requires forall n :: n in s.live ==> s.live[n].message.id != id
    ensures Step(s, Requeue(Filter(Some({id}), None, None, None, false), now)) ==
            Store(s.live[s.dead[id].number := Revived(s.dead[id], now)], s.dead - {id})
  {
    assert Selected(s.dead, Filter(Some({id}), None, None, None, false)) == {id};
    assert id in {id};
    assert RequeueAccepted(s, {id});
    var back := RevivedRows(s.dead, {id}, now);
    assert back == map[s.dead[id].number := Revived(s.dead[id], now)];
    assert s.live + back == s.live[s.dead[id].number := Revived(s.dead[id], now)];
  }

  /** Dead-lettering and requeueing put a message back in its place, due at once, with its history. */
  lemma BuryThenRequeueRestoresThePlace(s: Store, n: int, owner: string, attempts: int, failure: Failure,
                                        reason: string, failedAt: int, now: int)
    requires UniqueIds(s.live) && n in s.live && s.live[n].leaseOwner == Some(owner)
    requires forall i :: i in s.dead ==> s.dead[i].message.id == i
    ensures var m := s.live[n].message;
            var buried := Step(s, Bury(m.id, owner, attempts, failure, reason, failedAt));
            Step(buried, Requeue(Filter(Some({m.id}), None, None, None, false), now)) ==
            Store(s.live[n := Row(m, now, 0, Some(failure.error), s.live[n].history + [failure], None, None)],
                  s.dead - {m.id})
  {
    var m := s.live[n].message;
    var letter := Buried(n, s.live[n], attempts, failure, reason, failedAt);
    var buried := Store(s.live - {n}, s.dead[m.id := letter]);
    BuryMovesTheRow(s, n, owner, attempts, failure, reason, failedAt);
    forall k | k in buried.live
      ensures buried.live[k].message.id != m.id
    {
      assert k in s.live && k != n;
    }
    RequeueRestoresTheRow(buried, m.id, now);
    assert (s.live - {n})[n := Revived(letter, now)] == s.live[n := Revived(letter, now)];
    assert s.dead[m.id := letter] - {m.id} == s.dead - {m.id};
  }

  // ---------------------------------------------------------------- reused ids

  /** A row with an id or a number from before cannot be accounted for. */
  lemma ReusedIsUnaccounted(w: World, rows: map<int, Incoming>, w': World)
    requires Accounted(w) && InsertAccepted(w.store.live, rows) && !NeverReused(w, Add(rows))
    requires w' == WorldStep(w, Add(rows))
    ensures !Accounted(w')
  {
    var added := Numbering(rows);
    var n :| n in rows && (rows[n].message.id in w.number || exists i :: i in w.number && w.number[i] == n);
    var id := rows[n].message.id;
    assert w'.number[id] == n;
    if id in w.number {
      IdInTwoPlaces(w, rows, w', n);
    } else {
      var i :| i in w.number && w.number[i] == n;
      if i in added {
        IdInTwoPlaces(w, rows, w', added[i]);
      } else {
        NumberOfTwo(w'.number, i, id);
      }
    }
  }

  lemma NumberOfTwo(number: map<string, int>, i: string, j: string)
    requires i in number && j in number && i != j && number[i] == number[j]
    ensures !NumbersDiffer(number)
  {
  }

  lemma InTwoPlaces(w: World, i: string)
    requires i in w.number && LiveAt(w, i) && (i in w.store.dead || i in w.published || i in w.purged)
    ensures !Accounted(w)
  {
    assert !ExactlyOne(LiveAt(w, i), i in w.store.dead, i in w.published, i in w.purged);
  }

  lemma IdsDiffer(live: Table, rows: map<int, Incoming>, a: int, b: int)
    requires InsertAccepted(live, rows) && a in rows && b in live
    ensures rows[a].message.id != live[b].message.id
  {
  }

  lemma NotLiveYet(w: World, rows: map<int, Incoming>, n: int)
    requires InsertAccepted(w.store.live, rows) && n in rows
    ensures !LiveAt(w, rows[n].message.id)
  {
    if LiveAt(w, rows[n].message.id) {
      IdsDiffer(w.store.live, rows, n, w.number[rows[n].message.id]);
    }
  }

  /** An accepted row whose id was used before: the id is live now and still where it was. */
  lemma IdInTwoPlaces(w: World, rows: map<int, Incoming>, w': World, n: int)
    requires Accounted(w) && InsertAccepted(w.store.live, rows) && n in rows && rows[n].message.id in w.number
    requires w' == WorldStep(w, Add(rows))
    ensures !Accounted(w')
  {
    var id := rows[n].message.id;
    NotLiveYet(w, rows, n);
    assert w'.number[id] == n && w'.store.live[n] == NewRow(rows[n]);
    assert ExactlyOne(LiveAt(w, id), id in w.store.dead, id in w.published, id in w.purged);
    InTwoPlaces(w', id);
  }

  /** An accepted add keeps every message accounted for exactly when it reuses neither an id nor a number. */
  lemma AccountedIffNeverReused(w: World, rows: map<int, Incoming>)
    requires Accounted(w) && InsertAccepted(w.store.live, rows)
    ensures Accounted(WorldStep(w, Add(rows))) <==> NeverReused(w, Add(rows))
  {
    if NeverReused(w, Add(rows)) {
      AddStaysAccounted(w, rows);
    } else {
      ReusedIsUnaccounted(w, rows, WorldStep(w, Add(rows)));
    }
  }

  const OOPS := Failure("e", 1)

  function Sent(payload: string): Message {
    Message("id", "t", payload, None, 0)
  }

  function AddSent(n: int, payload: string): Statement {
    Add(map[n := Incoming(Sent(payload), 0)])
  }

  function LeasedRow(payload: string): Row {
    Row(Sent(payload), 0, 0, None, [], Some("relay"), Some(9))
  }

  function Letter(n: int, payload: string): DeadLetter {
    DeadLetter(Sent(payload), n, 1, Some("e"), [OOPS], "r", 1)
  }

  /** Added, leased and buried: the message is a dead letter, in place of any earlier one of its id. */
  lemma AddLeaseBury(dead: map<string, DeadLetter>, n: int, payload: string)
    ensures var s1 := Step(Store(map[], dead), AddSent(n, payload));
            var s2 := Step(s1, Lease({n}, "relay", 9));
            Step(s2, Bury("id", "relay", 1, OOPS, "r", 1)) == Store(map[], dead["id" := Letter(n, payload)])
  {
    var s1 := Step(Store(map[], dead), AddSent(n, payload));
    assert s1.live == map[n := NewRow(Incoming(Sent(payload), 0))];
    var s2 := Step(s1, Lease({n}, "relay", 9));
    assert s2.live == map[n := LeasedRow(payload)];
    assert LeasedBy(s2.live, "id", "relay") == {n};
    assert s2.live - {n} == map[];
    assert [] + [OOPS] == [OOPS];
  }

  function BuriedTwice(first: string, second: string): seq<Statement> {
    [AddSent(1, first), Lease({1}, "relay", 9), Bury("id", "relay", 1, OOPS, "r", 1),
     AddSent(2, second), Lease({2}, "relay", 9), Bury("id", "relay", 1, OOPS, "r", 1)]
  }

  lemma RunOfThree(s: Store, a: Statement, b: Statement, c: Statement, rest: seq<Statement>)
    ensures Run(s, [a, b, c] + rest) == Run(Step(Step(Step(s, a), b), c), rest)
  {
    assert ([a, b, c] + rest)[1..] == [b, c] + rest;
    assert ([b, c] + rest)[1..] == [c] + rest;
    assert ([c] + rest)[1..] == rest;
    assert Run(Step(s, a), [b, c] + rest) == Run(Step(Step(s, a), b), [c] + rest);
  }

  /** A producer that adds two messages under one id: once both have been buried, the first is nowhere. */
  lemma ReusedIdLosesADeadLetter(s: Store, first: string, second: string)
    requires s.live == map[] && s.dead == map[]
    ensures Run(s, BuriedTwice(first, second)) == Store(map[], map["id" := Letter(2, second)])
  {
    var none := s.dead;
    var sts := BuriedTwice(first, second);
    var more := [AddSent(2, second), Lease({2}, "relay", 9), Bury("id", "relay", 1, OOPS, "r", 1)];
    assert sts == [AddSent(1, first), Lease({1}, "relay", 9), Bury("id", "relay", 1, OOPS, "r", 1)] + more;
    RunOfThree(Store(map[], none), AddSent(1, first), Lease({1}, "relay", 9), Bury("id", "relay", 1, OOPS, "r", 1), more);
    AddLeaseBury(none, 1, first);
    var one := none["id" := Letter(1, first)];
    assert Run(Store(map[], none), sts) == Run(Store(map[], one), more);
    assert more == more + [];
    RunOfThree(Store(map[], one), AddSent(2, second), Lease({2}, "relay", 9), Bury("id", "relay", 1, OOPS, "r", 1), []);
    AddLeaseBury(one, 2, second);
    assert Run(Store(map[], one), more) == Store(map[], one["id" := Letter(2, second)]);
    SameMap(one["id" := Letter(2, second)], map["id" := Letter(2, second)]);
    assert Run(s, sts) == Store(map[], one["id" := Letter(2, second)]);
  }
}

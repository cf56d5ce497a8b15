/** Runs of overlapping edits and deletions: each reads first and runs its transaction later. */
module SupplyRuns {
  import opened Common
  import opened Supply
  import opened SupplyTheorems

  /** What an attempt has read so far. */
  datatype Attempt =
    | Editing(d: int, seen: Lines, now: Lines)
    | Prepared(d: int, seen: Lines, now: Lines, recordOf: map<int, int>)
    | Deleting(d: int, seen: Lines)

  datatype System = System(s: State, attempts: map<int, Attempt>)

  datatype Step =
    | Record(lines: Lines, at: int)
    | StartEdit(a: int, d: int, now: Lines)
    | ReadRecords(a: int)
    | StartDelete(a: int, d: int)
    | FinishEdit(a: int)
    | FinishDelete(a: int)

  ghost predicate ReadsRecords(s: State, d: int, recordOf: map<int, int>) {
    && (forall g :: g in recordOf ==> IsRecordOf(s.records, recordOf[g], d, g))
    && (forall r :: r in s.records && s.records[r].document == d ==> s.records[r].good in recordOf)
  }

  /** An edit that misses a record of a line it saw fails there. */
  ghost predicate Next(x: System, step: Step, x': System) {
    match step
    case Record(lines, at) => RecordTx(x.s, x'.s, lines, at) && x'.attempts == x.attempts
    case StartEdit(a, d, now) =>
      && a !in x.attempts && d in x.s.documents && x'.s == x.s
      && x'.attempts == x.attempts[a := Editing(d, x.s.documents[d].lines, now)]
    case ReadRecords(a) =>
      && a in x.attempts && x.attempts[a].Editing? && x'.s == x.s
      && (exists recordOf: map<int, int> ::
            var e := x.attempts[a];
            && ReadsRecords(x.s, e.d, recordOf) && (forall g :: g in e.seen ==> g in recordOf)
            && x'.attempts == x.attempts[a := Prepared(e.d, e.seen, e.now, recordOf)])
    case StartDelete(a, d) =>
      && a !in x.attempts && d in x.s.documents && x'.s == x.s
      && x'.attempts == x.attempts[a := Deleting(d, x.s.documents[d].lines)]
    case FinishEdit(a) =>
      && a in x.attempts && x.attempts[a].Prepared? && x'.attempts == x.attempts - {a}
      && (var e := x.attempts[a];
          (forall g :: g in e.seen ==> g in e.recordOf) && EditTx(x.s, x'.s, e.d, e.seen, e.recordOf, e.now))
    case FinishDelete(a) =>
      && a in x.attempts && x.attempts[a].Deleting? && x'.attempts == x.attempts - {a}
      && DeleteTx(x.s, x'.s, x.attempts[a].d, x.attempts[a].seen)
  }

  /** What a transaction was prepared with fits the state it runs in. */
  ghost predicate StepFits(x: System, step: Step) {
    match step
    case FinishEdit(a) =>
      a in x.attempts && x.attempts[a].Prepared? &&
      var e := x.attempts[a];
      (forall g :: g in e.seen ==> g in e.recordOf) && EditFits(x.s, e.d, e.seen, e.recordOf, e.now)
    case FinishDelete(a) =>
      a in x.attempts && x.attempts[a].Deleting? && DeleteFits(x.s, x.attempts[a].d, x.attempts[a].seen)
    case _ => true
  }

  ghost predicate AttemptOk(s: State, attempt: Attempt) {
    && attempt.d < s.nextDocument
    && (attempt.Prepared? ==>
          ReadBefore(s, attempt.d, attempt.recordOf) && forall g :: g in attempt.seen ==> g in attempt.recordOf)
  }

  ghost predicate Ok(x: System) {
    IdsAreOld(x.s) && forall a :: a in x.attempts ==> AttemptOk(x.s, x.attempts[a])
  }

  // ---------------------------------------------------------------- every step

  /** Ids are never used again, so what was read of them stays true of what is left. */
  ghost predicate RecordsOnlyAge(s: State, s': State) {
    && s.nextDocument <= s'.nextDocument && s.nextRecord <= s'.nextRecord
    && (forall r :: r in s'.records && r < s.nextRecord ==>
          r in s.records && s'.records[r].document == s.records[r].document && s'.records[r].good == s.records[r].good)
  }

  lemma AttemptsStayOk(s: State, s': State, attempt: Attempt)
    requires AttemptOk(s, attempt) && RecordsOnlyAge(s, s')
    ensures AttemptOk(s', attempt)
  {
  }

  lemma EditTxAges(s: State, s': State, d: int, seen: Lines, recordOf: map<int, int>, now: Lines)
    requires IdsAreOld(s) && ReadBefore(s, d, recordOf) && (forall g :: g in seen ==> g in recordOf)
    requires EditTx(s, s', d, seen, recordOf, now)
    ensures RecordsOnlyAge(s, s')
  {
    var tasks: map<int, Task> :| (forall g :: IsTask(tasks, g, PurchaseTask(seen, now, recordOf, g))) &&
                                 TasksDone(s.records, s'.records, d, tasks, s.nextRecord);
    NewRecords(s, s', d, seen, recordOf, now, tasks);
    forall r | r in s.records {
      OldRecords(s, s', d, seen, recordOf, now, tasks, r);
    }
  }

  lemma StepAges(x: System, step: Step, x': System)
    requires Ok(x) && Next(x, step, x')
    ensures IdsAreOld(x'.s) && RecordsOnlyAge(x.s, x'.s)
  {
    match step
    case Record(lines, at) => RecordTxKeepsIds(x.s, x'.s, lines, at);
    case FinishEdit(a) =>
      var e := x.attempts[a];
      assert AttemptOk(x.s, e);
      EditTxAges(x.s, x'.s, e.d, e.seen, e.recordOf, e.now);
      EditTxKeepsIds(x.s, x'.s, e.d, e.seen, e.recordOf, e.now);
    case FinishDelete(a) =>
      assert AttemptOk(x.s, x.attempts[a]);
      DeleteTxKeepsIds(x.s, x'.s, x.attempts[a].d, x.attempts[a].seen);
    case _ =>
  }

  lemma StepKeepsOk(x: System, step: Step, x': System)
    requires Ok(x) && Next(x, step, x')
    ensures Ok(x')
  {
    StepAges(x, step, x');
    forall a | a in x'.attempts
      ensures AttemptOk(x'.s, x'.attempts[a])
    {
      if a in x.attempts && x'.attempts[a] == x.attempts[a] {
        AttemptsStayOk(x.s, x'.s, x.attempts[a]);
      } else if step.ReadRecords? {
        assert AttemptOk(x.s, x.attempts[a]);
      }
    }
  }

  /** A step from a state in step leads to one exactly when its reads fit. */
  lemma StepIsRightIff(x: System, step: Step, x': System)
    requires Ok(x) && Follows(x.s) && Next(x, step, x')
    ensures Follows(x'.s) <==> StepFits(x, step)
  {
    match step
    case Record(lines, at) => RecordTxKeepsFollows(x.s, x'.s, lines, at);
    case FinishEdit(a) =>
      var e := x.attempts[a];
      assert AttemptOk(x.s, e);
      EditIsRightIff(x.s, x'.s, e.d, e.seen, e.recordOf, e.now);
    case FinishDelete(a) => DeleteIsRightIff(x.s, x'.s, x.attempts[a].d, x.attempts[a].seen);
    case _ =>
  }

  // ---------------------------------------------------------------- runs

  ghost predicate Run(xs: seq<System>, steps: seq<Step>) {
    |xs| == |steps| + 1 && forall i :: 0 <= i < |steps| ==> Next(xs[i], steps[i], xs[i + 1])
  }

  lemma {:induction false} OkAlongRuns(xs: seq<System>, steps: seq<Step>, i: nat)
    requires Run(xs, steps) && Ok(xs[0]) && i <= |steps|
    ensures Ok(xs[i])
  {
    if 0 < i {
      OkAlongRuns(xs, steps, i - 1);
      StepKeepsOk(xs[i - 1], steps[i - 1], xs[i]);
    }
  }

  lemma StepOfRun(xs: seq<System>, steps: seq<Step>, i: nat)
    requires Run(xs, steps) && Ok(xs[0]) && i < |steps| && Follows(xs[i].s)
    ensures Follows(xs[i + 1].s) <==> StepFits(xs[i], steps[i])
  {
    OkAlongRuns(xs, steps, i);
    StepIsRightIff(xs[i], steps[i], xs[i + 1]);
  }

  lemma AllOfRun(xs: seq<System>, steps: seq<Step>, follows: nat -> bool, fits: nat -> bool)
    requires |xs| == |steps| + 1
    requires forall i: nat :: i < |xs| ==> (follows(i) <==> Follows(xs[i].s))
    requires forall i: nat :: i < |steps| ==> (fits(i) <==> StepFits(xs[i], steps[i]))
    requires (forall i: nat :: i <= |steps| ==> follows(i)) <==> forall i: nat :: i < |steps| ==> fits(i)
    ensures (forall j :: 0 <= j <= |steps| ==> Follows(xs[j].s)) <==>
            forall j :: 0 <= j < |steps| ==> StepFits(xs[j], steps[j])
  {
    if forall j :: 0 <= j <= |steps| ==> Follows(xs[j].s) {
      assert forall i: nat :: i <= |steps| ==> follows(i);
    }
    if forall j :: 0 <= j < |steps| ==> StepFits(xs[j], steps[j]) {
      assert forall i: nat :: i < |steps| ==> fits(i);
    }
  }

  /**
   Over any run of overlapping records, edits and deletions, stock and purchase records are in step with the lines all
   along exactly when every transaction's reads still fit when it runs.
   */
  lemma RunFollowsIffReadsFit(xs: seq<System>, steps: seq<Step>)
    requires Run(xs, steps) && Ok(xs[0]) && Follows(xs[0].s)
    ensures (forall j :: 0 <= j <= |steps| ==> Follows(xs[j].s)) <==>
            forall j :: 0 <= j < |steps| ==> StepFits(xs[j], steps[j])
  {
    var follows: nat -> bool := (i: nat) => i < |xs| && Follows(xs[i].s);
    var fits: nat -> bool := (i: nat) => i < |steps| && StepFits(xs[i], steps[i]);
    forall i: nat | i < |steps| && follows(i)
      ensures follows(i + 1) <==> fits(i)
    {
      StepOfRun(xs, steps, i);
    }
    AllAlong(follows, fits, |steps|);
    AllOfRun(xs, steps, follows, fits);
  }

  /** With quantities above zero an edit can only fit while the document has the goods and quantities that were read. */
  lemma FittingReadsAreCurrent(s: State, d: int, seen: Lines, recordOf: map<int, int>, now: Lines)
    requires d in s.documents && (forall g :: g in seen ==> g in recordOf)
    requires forall g :: (g in seen ==> 0 < seen[g].quantity) && (g in s.documents[d].lines ==> 0 < s.documents[d].lines[g].quantity)
    requires EditFits(s, d, seen, recordOf, now)
    ensures forall g :: (g in s.documents[d].lines <==> g in seen) &&
                        Quantity(s.documents[d].lines, g) == Quantity(seen, g)
  {
    forall g
      ensures Quantity(s.documents[d].lines, g) == Quantity(seen, g)
      ensures g in s.documents[d].lines <==> g in seen
    {
      assert GoodFits(s, d, seen, recordOf, now, g);
      assert g in seen ==> 0 < seen[g].quantity;
      assert g in s.documents[d].lines ==> 0 < s.documents[d].lines[g].quantity;
    }
  }

  // ---------------------------------------------------------------- two overlapping edits

  const EMPTY := State(map[], map[], [], 0, 0)
  const FIVE: Lines := map[7 := Line(5, 1.0)]

  function Blank(lines: Lines, records: map<int, Record>, movements: seq<Movement>, next: int): State {
    State(map[0 := Document(lines, 0)], records, movements, 1, next)
  }

  const FIRST := Record.Record(0, 7, 1.0)
  const MOVE5 := Movement(0, 7, 5)

  lemma EmptyIsInStep()
    ensures Ok(System(EMPTY, map[])) && Follows(EMPTY)
  {
  }

  lemma BlankIsRecorded()
    ensures RecordTx(EMPTY, Blank(map[], map[], [], 0), map[], 0)
  {
    assert Prices(map[]) == map[];
  }

  /** An edit that saw no line adds one of five, whatever the document has by now. */
  lemma AddsFive(lines: Lines, records: map<int, Record>, movements: seq<Movement>, next: int)
    requires forall r :: r in records ==> r < next
    ensures EditTx(Blank(lines, records, movements, next),
                   Blank(FIVE, records[next := FIRST], movements + [MOVE5], next + 1), 0, map[], map[], FIVE)
  {
    var s, s' := Blank(lines, records, movements, next), Blank(FIVE, records[next := FIRST], movements + [MOVE5], next + 1);
    forall e, g {
      NetOfOne(movements, MOVE5, e, g);
    }
    var tasks: map<int, Task> := map[7 := New(1.0)];
    assert forall g :: IsTask(tasks, g, PurchaseTask(map[], FIVE, map[], g));
    AddsOneRecord(records, next, tasks);
    assert s'.documents == s.documents[0 := s.documents[0].(lines := FIVE)];
    assert SameElsewhere(s.movements, s'.movements, 0);
    assert forall g :: Net(s'.movements, 0, g) == Net(s.movements, 0, g) + Quantity(FIVE, g) - Quantity(map[], g);
    assert TasksDone(s.records, s'.records, 0, tasks, s.nextRecord);
    assert forall r :: r in s'.records ==> r < s'.nextRecord;
  }

  lemma AddsOneRecord(records: map<int, Record>, next: int, tasks: map<int, Task>)
    requires (forall r :: r in records ==> r < next) && tasks == map[7 := New(1.0)]
    ensures TasksDone(records, records[next := FIRST], 0, tasks, next)
  {
    var after := records[next := FIRST];
    assert RemovedIds(tasks) == {} && NewPrices(tasks) == map[7 := 1.0];
    SameMap(records - {}, records);
    assert IsRecordOf(after, next, 0, 7);
    assert Created(records - RemovedIds(tasks), after, 0, NewPrices(tasks), next);
    assert CorrectedTo(tasks, after, after);
  }

  const BLANK := Blank(map[], map[], [], 0)
  const ONE := Blank(FIVE, map[0 := FIRST], [MOVE5], 1)
  const TWO := Blank(FIVE, map[0 := FIRST, 1 := FIRST], [MOVE5, MOVE5], 2)
  const READING := Editing(0, map[], FIVE)
  const READY := Prepared(0, map[], FIVE, map[])

  lemma BothRead()
    ensures Next(System(EMPTY, map[]), Step.Record(map[], 0), System(BLANK, map[]))
    ensures Next(System(BLANK, map[]), StartEdit(1, 0, FIVE), System(BLANK, map[1 := READING]))
    ensures Next(System(BLANK, map[1 := READING]), StartEdit(2, 0, FIVE), System(BLANK, map[1 := READING, 2 := READING]))
  {
    BlankIsRecorded();
  }

  lemma BothReadRecords()
    ensures Next(System(BLANK, map[1 := READING, 2 := READING]), ReadRecords(1), System(BLANK, map[1 := READY, 2 := READING]))
    ensures Next(System(BLANK, map[1 := READY, 2 := READING]), ReadRecords(2), System(BLANK, map[1 := READY, 2 := READY]))
  {
    assert ReadsRecords(BLANK, 0, map[]);
  }

  lemma FirstFinishes()
    ensures Next(System(BLANK, map[1 := READY, 2 := READY]), FinishEdit(1), System(ONE, map[2 := READY]))
  {
    AddsFive(map[], map[], [], 0);
    assert [] + [MOVE5] == [MOVE5];
    SameMap(map[1 := READY, 2 := READY] - {1}, map[2 := READY]);
  }

  lemma SecondFinishes()
    ensures Next(System(ONE, map[2 := READY]), FinishEdit(2), System(TWO, map[]))
  {
    AddsFive(FIVE, map[0 := FIRST], [MOVE5], 1);
    assert [MOVE5] + [MOVE5] == [MOVE5, MOVE5];
    SameMap(map[2 := READY] - {2}, map[]);
  }

  lemma CountedTwice()
    ensures Net(TWO.movements, 0, 7) == 10 && !Follows(TWO)
  {
    NetOfOne([], MOVE5, 0, 7);
    NetOfOne([MOVE5], MOVE5, 0, 7);
    assert [] + [MOVE5] == [MOVE5] && [MOVE5] + [MOVE5] == [MOVE5, MOVE5];
    assert Quantity(LinesOf(TWO.documents, 0), 7) == 5;
  }

  lemma RunGoesOn(xs: seq<System>, steps: seq<Step>, step: Step, x: System)
    requires Run(xs, steps) && Next(xs[|steps|], step, x)
    ensures Run(xs + [x], steps + [step])
  {
    var all, more := xs + [x], steps + [step];
    forall i | 0 <= i < |more|
      ensures Next(all[i], more[i], all[i + 1])
    {
      if i < |steps| {
        assert Next(xs[i], steps[i], xs[i + 1]);
        assert all[i] == xs[i] && all[i + 1] == xs[i + 1];
      }
    }
  }

  lemma RunToRead() returns (xs: seq<System>, steps: seq<Step>)
    ensures Run(xs, steps) && xs[0] == System(EMPTY, map[])
    ensures xs[|steps|] == System(BLANK, map[1 := READING, 2 := READING])
  {
    BothRead();
    xs, steps := [System(EMPTY, map[])], [];
    RunGoesOn(xs, steps, Step.Record(map[], 0), System(BLANK, map[]));
    xs, steps := xs + [System(BLANK, map[])], steps + [Step.Record(map[], 0)];
    RunGoesOn(xs, steps, StartEdit(1, 0, FIVE), System(BLANK, map[1 := READING]));
    xs, steps := xs + [System(BLANK, map[1 := READING])], steps + [StartEdit(1, 0, FIVE)];
    RunGoesOn(xs, steps, StartEdit(2, 0, FIVE), System(BLANK, map[1 := READING, 2 := READING]));
    xs, steps := xs + [System(BLANK, map[1 := READING, 2 := READING])], steps + [StartEdit(2, 0, FIVE)];
  }

  lemma RunToReady() returns (xs: seq<System>, steps: seq<Step>)
    ensures Run(xs, steps) && xs[0] == System(EMPTY, map[])
    ensures xs[|steps|] == System(BLANK, map[1 := READY, 2 := READY])
  {
    xs, steps := RunToRead();
    BothReadRecords();
    RunGoesOn(xs, steps, ReadRecords(1), System(BLANK, map[1 := READY, 2 := READING]));
    xs, steps := xs + [System(BLANK, map[1 := READY, 2 := READING])], steps + [ReadRecords(1)];
    RunGoesOn(xs, steps, ReadRecords(2), System(BLANK, map[1 := READY, 2 := READY]));
    xs, steps := xs + [System(BLANK, map[1 := READY, 2 := READY])], steps + [ReadRecords(2)];
  }

  lemma RunToTwo() returns (xs: seq<System>, steps: seq<Step>)
    ensures Run(xs, steps) && xs[0] == System(EMPTY, map[])
    ensures xs[|steps|] == System(TWO, map[])
  {
    xs, steps := RunToReady();
    FirstFinishes();
    RunGoesOn(xs, steps, FinishEdit(1), System(ONE, map[2 := READY]));
    xs, steps := xs + [System(ONE, map[2 := READY])], steps + [FinishEdit(1)];
    SecondFinishes();
    RunGoesOn(xs, steps, FinishEdit(2), System(TWO, map[]));
    xs, steps := xs + [System(TWO, map[])], steps + [FinishEdit(2)];
  }

  /**
   Two edits that both read a document without lines and both add five of good 7: the document ends with one line of
   five, ten in stock and two purchase records.
   */
  lemma OverlappingEditsCountTwice() returns (xs: seq<System>, steps: seq<Step>)
    ensures Run(xs, steps) && xs[0] == System(EMPTY, map[]) && Ok(xs[0]) && Follows(xs[0].s)
    ensures var s := xs[|steps|].s;
            && s.documents == map[0 := Document(FIVE, 0)]
            && Net(s.movements, 0, 7) == 10
            && IsRecordOf(s.records, 0, 0, 7) && IsRecordOf(s.records, 1, 0, 7)
            && !Follows(s)
  {
    EmptyIsInStep();
    xs, steps := RunToTwo();
    CountedTwice();
  }

  /**
   The same lines again are not enough either: when the line was deleted and entered anew in between, it has a new
   record, and the edit removes the old one.
   */
  lemma SameLinesAreNotEnough(now: Lines)
    requires now == map[]
    ensures exists s: State, recordOf: map<int, int> ::
              && IdsAreOld(s) && Follows(s) && ReadBefore(s, 0, recordOf) && 0 in s.documents
              && s.documents[0].lines == FIVE && 7 in recordOf
              && !EditFits(s, 0, FIVE, recordOf, now)
  {
    var s := Blank(FIVE, map[1 := FIRST], [MOVE5], 2);
    var recordOf: map<int, int> := map[7 := 0];
    forall e, g {
      NetOfOne([], MOVE5, e, g);
    }
    assert [] + [MOVE5] == [MOVE5];
    assert IsRecordOf(s.records, 1, 0, 7);
    assert !GoodFits(s, 0, FIVE, recordOf, now, 7);
    assert !EditFits(s, 0, FIVE, recordOf, now);
  }
}

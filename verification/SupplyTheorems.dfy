/** Exactly which reads leave stock and purchase records in step with the lines. */
module SupplyTheorems {
  import opened Common
  import opened Supply

  // ---------------------------------------------------------------- recording

  lemma RecordTxKeepsIds(s: State, s': State, lines: Lines, now: int)
    requires IdsAreOld(s) && RecordTx(s, s', lines, now)
    ensures IdsAreOld(s')
  {
  }

  lemma NewRecordsFollow(documents: map<int, Document>, before: map<int, Record>, after: map<int, Record>, d: int, lines: Lines,
                         now: int, from: int)
    requires d !in documents && RecordsFollow(documents, before) && forall r :: r in before ==> r < from
    requires Created(before, after, d, Prices(lines), from)
    ensures RecordsFollow(documents[d := Document(lines, now)], after)
  {
    var documents' := documents[d := Document(lines, now)];
    assert LinesOf(documents, d) == map[];
    forall e, g | g in LinesOf(documents', e)
      ensures HasRecord(after, e, g, LinesOf(documents', e)[g].price)
    {
      if e != d {
        assert HasRecord(before, e, g, LinesOf(documents, e)[g].price);
        OldRecordsStay(before, after, d, Prices(lines), from, e, g, LinesOf(documents, e)[g].price);
      } else {
        assert g in Prices(lines);
        NewRecordsAreThere(before, after, d, Prices(lines), from, g);
      }
    }
    NewRecordsHaveLines(documents, before, after, d, lines, now, from);
    StillOnePerLine(before, after, d, Prices(lines), from);
  }

  lemma NewRecordsHaveLines(documents: map<int, Document>, before: map<int, Record>, after: map<int, Record>, d: int,
                            lines: Lines, now: int, from: int)
    requires d !in documents && Created(before, after, d, Prices(lines), from)
    requires forall r :: r in before ==> before[r].good in LinesOf(documents, before[r].document)
    ensures forall r :: r in before ==> before[r].document != d
    ensures forall r :: r in after ==> after[r].good in LinesOf(documents[d := Document(lines, now)], after[r].document)
  {
  }

  lemma StillOnePerLine(before: map<int, Record>, after: map<int, Record>, d: int, prices: map<int, real>, from: int)
    requires OnePerLine(before) && (forall r :: r in before ==> before[r].document != d)
    requires Created(before, after, d, prices, from)
    ensures OnePerLine(after)
  {
  }

  lemma OldRecordsStay(before: map<int, Record>, after: map<int, Record>, d: int, prices: map<int, real>, from: int,
                       e: int, g: int, price: real)
    requires Created(before, after, d, prices, from) && HasRecord(before, e, g, price)
    ensures HasRecord(after, e, g, price)
  {
    var r :| IsRecordOf(before, r, e, g) && before[r].price == price;
    assert IsRecordOf(after, r, e, g);
  }

  lemma NewRecordsAreThere(before: map<int, Record>, after: map<int, Record>, d: int, prices: map<int, real>, from: int, g: int)
    requires Created(before, after, d, prices, from) && g in prices
    ensures HasRecord(after, d, g, prices[g])
  {
  }

  lemma RecordTxKeepsFollows(s: State, s': State, lines: Lines, now: int)
    requires IdsAreOld(s) && Follows(s) && RecordTx(s, s', lines, now)
    ensures Follows(s')
  {
    var d := s.nextDocument;
    assert LinesOf(s.documents, d) == map[];
    NewRecordsFollow(s.documents, s.records, s'.records, d, lines, now, s.nextRecord);
    forall e, g
      ensures Net(s'.movements, e, g) == Quantity(LinesOf(s'.documents, e), g)
    {
      assert Net(s.movements, e, g) == Quantity(LinesOf(s.documents, e), g);
    }
  }

  // ---------------------------------------------------------------- deleting

  lemma DeleteTxKeepsIds(s: State, s': State, d: int, seen: Lines)
    requires IdsAreOld(s) && d < s.nextDocument && DeleteTx(s, s', d, seen)
    ensures IdsAreOld(s')
  {
  }

  lemma RemainingRecordsFollow(documents: map<int, Document>, records: map<int, Record>, d: int)
    requires RecordsFollow(documents, records)
    ensures RecordsFollow(documents - {d}, map r | r in records && records[r].document != d :: records[r])
  {
    var after := map r | r in records && records[r].document != d :: records[r];
    forall e, g | g in LinesOf(documents - {d}, e)
      ensures HasRecord(after, e, g, LinesOf(documents - {d}, e)[g].price)
    {
      assert HasRecord(records, e, g, LinesOf(documents, e)[g].price);
      var r :| IsRecordOf(records, r, e, g) && records[r].price == LinesOf(documents, e)[g].price;
      assert IsRecordOf(after, r, e, g);
    }
  }

  /** A deletion leaves everything in step exactly when it issues what the document still holds. */
  lemma DeleteIsRightIff(s: State, s': State, d: int, seen: Lines)
    requires Follows(s) && DeleteTx(s, s', d, seen)
    ensures Follows(s') <==> DeleteFits(s, d, seen)
  {
    RemainingRecordsFollow(s.documents, s.records, d);
    forall e, g
      ensures Net(s.movements, e, g) == Quantity(LinesOf(s.documents, e), g)
      ensures e != d ==> Net(s'.movements, e, g) == Quantity(LinesOf(s'.documents, e), g)
      ensures Net(s'.movements, d, g) == Quantity(LinesOf(s'.documents, d), g) <==>
              Quantity(LinesOf(s.documents, d), g) == Quantity(seen, g)
    {
      assert Net(s.movements, d, g) == Quantity(LinesOf(s.documents, d), g);
    }
  }

  // ---------------------------------------------------------------- what an edit does to one document's records

  /** An edit's task list, and what it makes of the records. */
  ghost predicate Done(s: State, s': State, d: int, seen: Lines, recordOf: map<int, int>, now: Lines, tasks: map<int, Task>)
    requires forall g :: g in seen ==> g in recordOf
  {
    && (forall g :: IsTask(tasks, g, PurchaseTask(seen, now, recordOf, g)))
    && TasksDone(s.records, s'.records, d, tasks, s.nextRecord)
    && (forall r :: r in s.records ==> r < s.nextRecord) && ReadBefore(s, d, recordOf)
  }

  /** Removing takes away, of the records of a line, only the one that was read for it. */
  lemma RemovedAre(s: State, s': State, d: int, seen: Lines, recordOf: map<int, int>, now: Lines, tasks: map<int, Task>, r: int)
    requires (forall g :: g in seen ==> g in recordOf) && Done(s, s', d, seen, recordOf, now, tasks) && r in s.records
    ensures r in RemovedIds(tasks) <==>
            s.records[r].document == d && s.records[r].good in seen && s.records[r].good !in now && recordOf[s.records[r].good] == r
  {
    if r in RemovedIds(tasks) {
      var g :| g in tasks && tasks[g] == Remove(r);
      assert IsTask(tasks, g, PurchaseTask(seen, now, recordOf, g));
    }
    var h := s.records[r].good;
    assert IsTask(tasks, h, PurchaseTask(seen, now, recordOf, h));
  }

  lemma CorrectedAre(s: State, s': State, d: int, seen: Lines, recordOf: map<int, int>, now: Lines, tasks: map<int, Task>, r: int,
                     price: real)
    requires (forall g :: g in seen ==> g in recordOf) && Done(s, s', d, seen, recordOf, now, tasks) && r in s.records
    ensures var h := s.records[r].good;
            Corrects(tasks, r, price) <==>
            (s.records[r].document == d && h in seen && h in now && recordOf[h] == r && seen[h].price != now[h].price &&
             price == now[h].price)
  {
    if Corrects(tasks, r, price) {
      var g :| g in tasks && tasks[g] == Edit(r, price);
      assert IsTask(tasks, g, PurchaseTask(seen, now, recordOf, g));
    }
    var h := s.records[r].good;
    assert IsTask(tasks, h, PurchaseTask(seen, now, recordOf, h));
  }

  lemma NewAreNotCorrected(s: State, s': State, d: int, seen: Lines, recordOf: map<int, int>, now: Lines,
                           tasks: map<int, Task>, r: int)
    requires (forall g :: g in seen ==> g in recordOf) && Done(s, s', d, seen, recordOf, now, tasks) && s.nextRecord <= r
    ensures !IsCorrected(tasks, r)
  {
    forall g | g in tasks && tasks[g].Edit?
      ensures tasks[g].recordId < s.nextRecord
    {
      assert IsTask(tasks, g, PurchaseTask(seen, now, recordOf, g));
    }
  }

  /** The price an old record has after the edit. */
  function PriceAfter(s: State, d: int, seen: Lines, recordOf: map<int, int>, now: Lines, r: int): real
    requires r in s.records && forall g :: g in seen ==> g in recordOf
  {
    var h := s.records[r].good;
    if s.records[r].document == d && h in seen && h in now && recordOf[h] == r && seen[h].price != now[h].price
    then now[h].price else s.records[r].price
  }

  /** An old record stays unless it was read for a line that goes, and changes only to its line's new price. */
  lemma OldRecords(s: State, s': State, d: int, seen: Lines, recordOf: map<int, int>, now: Lines, tasks: map<int, Task>, r: int)
    requires (forall g :: g in seen ==> g in recordOf) && Done(s, s', d, seen, recordOf, now, tasks) && r in s.records
    ensures r in s'.records <==>
            !(s.records[r].document == d && s.records[r].good in seen && s.records[r].good !in now && recordOf[s.records[r].good] == r)
    ensures r in s'.records ==> s'.records[r] == s.records[r].(price := PriceAfter(s, d, seen, recordOf, now, r))
  {
    var made: map<int, Record> :| Created(s.records - RemovedIds(tasks), made, d, NewPrices(tasks), s.nextRecord) &&
                                  CorrectedTo(tasks, made, s'.records);
    RemovedAre(s, s', d, seen, recordOf, now, tasks, r);
    assert r in made <==> r in s.records - RemovedIds(tasks);
    if r in made {
      assert made[r] == s.records[r];
      CorrectedAre(s, s', d, seen, recordOf, now, tasks, r, s'.records[r].price);
      CorrectedAre(s, s', d, seen, recordOf, now, tasks, r, PriceAfter(s, d, seen, recordOf, now, r));
      assert Corrects(tasks, r, PriceAfter(s, d, seen, recordOf, now, r)) ==> IsCorrected(tasks, r);
      forall g | g in tasks && tasks[g].Edit? && tasks[g].recordId == r {
        CorrectedAre(s, s', d, seen, recordOf, now, tasks, r, tasks[g].price);
      }
    }
  }

  /** New records are for the lines that were not seen, one each. */
  lemma NewRecords(s: State, s': State, d: int, seen: Lines, recordOf: map<int, int>, now: Lines, tasks: map<int, Task>)
    requires (forall g :: g in seen ==> g in recordOf) && Done(s, s', d, seen, recordOf, now, tasks)
    ensures forall r :: r in s'.records && r !in s.records ==>
              && s'.records[r].document == d && s'.records[r].good in now && s'.records[r].good !in seen
              && s'.records[r].price == now[s'.records[r].good].price && s.nextRecord <= r
    ensures forall g :: g in now && g !in seen ==>
              exists r :: r !in s.records && IsRecordOf(s'.records, r, d, g) && s'.records[r].price == now[g].price
    ensures forall r, q | r in s'.records && r !in s.records && q in s'.records && q !in s.records ::
              s'.records[r].good == s'.records[q].good ==> r == q
  {
    var kept := s.records - RemovedIds(tasks);
    var made: map<int, Record> :| Created(kept, made, d, NewPrices(tasks), s.nextRecord) && CorrectedTo(tasks, made, s'.records);
    forall r | r in made && r !in s.records
      ensures r !in kept && s'.records[r] == made[r] && made[r].good in now && made[r].good !in seen
      ensures made[r].price == now[made[r].good].price
    {
      assert r !in kept;
      NewAreNotCorrected(s, s', d, seen, recordOf, now, tasks, r);
      var g := made[r].good;
      assert IsTask(tasks, g, PurchaseTask(seen, now, recordOf, g));
    }
    forall g | g in now && g !in seen
      ensures exists r :: r !in s.records && IsRecordOf(s'.records, r, d, g) && s'.records[r].price == now[g].price
    {
      assert IsTask(tasks, g, PurchaseTask(seen, now, recordOf, g));
      assert g in NewPrices(tasks);
      var r :| r !in kept && IsRecordOf(made, r, d, g) && made[r].price == NewPrices(tasks)[g];
      assert r !in s.records;
      assert IsRecordOf(s'.records, r, d, g);
    }
  }

  // ---------------------------------------------------------------- editing, good by good

  /** Stock and record of one good are as its line says. */
  ghost predicate GoodFollows(s: State, d: int, g: int) {
    var lines := LinesOf(s.documents, d);
    && Net(s.movements, d, g) == Quantity(lines, g)
    && (g in lines ==> HasRecord(s.records, d, g, lines[g].price))
    && (forall r :: IsRecordOf(s.records, r, d, g) ==> g in lines)
    && (forall r, q :: IsRecordOf(s.records, r, d, g) && IsRecordOf(s.records, q, d, g) ==> r == q)
  }

  lemma FollowsGoodByGood(s: State)
    ensures Follows(s) <==> forall d, g :: GoodFollows(s, d, g)
  {
    if Follows(s) {
      forall d, g
        ensures GoodFollows(s, d, g)
      {
        assert Net(s.movements, d, g) == Quantity(LinesOf(s.documents, d), g);
      }
    }
    if forall d, g :: GoodFollows(s, d, g) {
      forall d, g
        ensures Net(s.movements, d, g) == Quantity(LinesOf(s.documents, d), g)
        ensures g in LinesOf(s.documents, d) ==> HasRecord(s.records, d, g, LinesOf(s.documents, d)[g].price)
      {
        assert GoodFollows(s, d, g);
      }
      forall r | r in s.records
        ensures s.records[r].good in LinesOf(s.documents, s.records[r].document)
        ensures forall q :: IsRecordOf(s.records, q, s.records[r].document, s.records[r].good) ==> q == r
      {
        assert GoodFollows(s, s.records[r].document, s.records[r].good);
        assert IsRecordOf(s.records, r, s.records[r].document, s.records[r].good);
      }
      forall r, q | r in s.records && q in s.records && s.records[r].document == s.records[q].document &&
                    s.records[r].good == s.records[q].good
        ensures r == q
      {
        assert IsRecordOf(s.records, q, s.records[r].document, s.records[r].good);
      }
    }
  }

  /** An edit of one document leaves the others alone. */
  lemma OthersStay(s: State, s': State, d: int, seen: Lines, recordOf: map<int, int>, now: Lines, tasks: map<int, Task>, e: int, g: int)
    requires (forall h :: h in seen ==> h in recordOf) && Done(s, s', d, seen, recordOf, now, tasks)
    requires EditTx(s, s', d, seen, recordOf, now) && e != d && GoodFollows(s, e, g)
    ensures GoodFollows(s', e, g)
  {
    NewRecords(s, s', d, seen, recordOf, now, tasks);
    forall r | r in s.records {
      OldRecords(s, s', d, seen, recordOf, now, tasks, r);
    }
    forall r | IsRecordOf(s'.records, r, e, g)
      ensures IsRecordOf(s.records, r, e, g)
    {
    }
    if g in LinesOf(s.documents, e) {
      var r :| IsRecordOf(s.records, r, e, g) && s.records[r].price == LinesOf(s.documents, e)[g].price;
      assert IsRecordOf(s'.records, r, e, g);
    }
  }

  /** The record a line of the document has before the edit. */
  lemma RecordBefore(s: State, d: int, g: int) returns (before: Option<int>)
    requires GoodFollows(s, d, g)
    ensures before.Some? <==> g in LinesOf(s.documents, d)
    ensures before.Some? ==> IsRecordOf(s.records, before.value, d, g) &&
                             s.records[before.value].price == LinesOf(s.documents, d)[g].price
    ensures forall r :: IsRecordOf(s.records, r, d, g) <==> before == Some(r)
  {
    if g in LinesOf(s.documents, d) {
      var r :| IsRecordOf(s.records, r, d, g) && s.records[r].price == LinesOf(s.documents, d)[g].price;
      before := Some(r);
    } else {
      before := None;
    }
  }

  /** The record `kept` from before and the one `made` by the edit are all there is of a good. */
  ghost predicate AreRecords(s: State, d: int, g: int, kept: Option<int>, made: Option<int>) {
    && (forall r :: IsRecordOf(s.records, r, d, g) <==> kept == Some(r) || made == Some(r))
    && (kept.Some? && made.Some? ==> kept != made)
  }

  lemma RecordsAfter(s: State, s': State, d: int, seen: Lines, recordOf: map<int, int>, now: Lines, tasks: map<int, Task>, g: int,
                     before: Option<int>) returns (kept: Option<int>, made: Option<int>)
    requires (forall h :: h in seen ==> h in recordOf) && Done(s, s', d, seen, recordOf, now, tasks)
    requires forall r :: IsRecordOf(s.records, r, d, g) <==> before == Some(r)
    ensures AreRecords(s', d, g, kept, made)
    ensures made.Some? <==> g in now && g !in seen
    ensures made.Some? ==> IsRecordOf(s'.records, made.value, d, g) && s'.records[made.value].price == now[g].price
    ensures kept == if before.Some? && !(g in seen && g !in now && recordOf[g] == before.value) then before else None
    ensures kept.Some? ==> kept.value in s.records && IsRecordOf(s'.records, kept.value, d, g) &&
                           s'.records[kept.value].price == PriceAfter(s, d, seen, recordOf, now, kept.value)
  {
    NewRecords(s, s', d, seen, recordOf, now, tasks);
    kept, made := None, None;
    if before.Some? {
      assert IsRecordOf(s.records, before.value, d, g);
      OldRecords(s, s', d, seen, recordOf, now, tasks, before.value);
      if !(g in seen && g !in now && recordOf[g] == before.value) {
        kept := before;
      }
    }
    if g in now && g !in seen {
      var r :| r !in s.records && IsRecordOf(s'.records, r, d, g) && s'.records[r].price == now[g].price;
      made := Some(r);
    }
    forall r | IsRecordOf(s'.records, r, d, g)
      ensures kept == Some(r) || made == Some(r)
    {
      if r in s.records {
        OldRecords(s, s', d, seen, recordOf, now, tasks, r);
        assert IsRecordOf(s.records, r, d, g);
      }
    }
  }

  /** Following, in terms of those two: exactly one when there is a line, at its price, and none otherwise. */
  lemma FollowingIs(s: State, d: int, g: int, kept: Option<int>, made: Option<int>)
    requires AreRecords(s, d, g, kept, made)
    ensures kept.Some? ==> kept.value in s.records
    ensures made.Some? ==> made.value in s.records
    ensures var lines := LinesOf(s.documents, d);
            GoodFollows(s, d, g) <==>
            && Net(s.movements, d, g) == Quantity(lines, g)
            && if g in lines then
                 (kept.Some? && made.None? && s.records[kept.value].price == lines[g].price) ||
                 (made.Some? && kept.None? && s.records[made.value].price == lines[g].price)
               else kept.None? && made.None?
  {
    var lines := LinesOf(s.documents, d);
    if kept.Some? {
      assert IsRecordOf(s.records, kept.value, d, g);
    }
    if made.Some? {
      assert IsRecordOf(s.records, made.value, d, g);
    }
    if g in lines && HasRecord(s.records, d, g, lines[g].price) {
      var r :| IsRecordOf(s.records, r, d, g) && s.records[r].price == lines[g].price;
      assert kept == Some(r) || made == Some(r);
    }
  }

  /** For one good, the edit does what is right exactly when its task fits the line and record as they are now. */
  lemma GoodIsRightIff(s: State, s': State, d: int, seen: Lines, recordOf: map<int, int>, now: Lines, tasks: map<int, Task>, g: int)
    requires (forall h :: h in seen ==> h in recordOf) && Done(s, s', d, seen, recordOf, now, tasks)
    requires EditTx(s, s', d, seen, recordOf, now) && GoodFollows(s, d, g)
    ensures d in s.documents ==> (GoodFollows(s', d, g) <==> GoodFits(s, d, seen, recordOf, now, g))
    ensures d !in s.documents ==> (GoodFollows(s', d, g) <==> NothingToAdd(seen, now, g))
  {
    var before := RecordBefore(s, d, g);
    var kept, made := RecordsAfter(s, s', d, seen, recordOf, now, tasks, g, before);
    FollowingIs(s', d, g, kept, made);
    assert LinesOf(s'.documents, d) == if d in s.documents then now else map[];
    assert Net(s.movements, d, g) == Quantity(LinesOf(s.documents, d), g);
    assert g in recordOf && recordOf[g] in s.records ==> IsRecordOf(s.records, recordOf[g], d, g);
  }

  lemma GoodsAreRightIff(s: State, s': State, d: int, seen: Lines, recordOf: map<int, int>, now: Lines, tasks: map<int, Task>)
    requires (forall h :: h in seen ==> h in recordOf) && Done(s, s', d, seen, recordOf, now, tasks)
    requires EditTx(s, s', d, seen, recordOf, now) && forall g :: GoodFollows(s, d, g)
    ensures (forall g :: GoodFollows(s', d, g)) <==> EditFits(s, d, seen, recordOf, now)
  {
    forall g
      ensures d in s.documents ==> (GoodFollows(s', d, g) <==> GoodFits(s, d, seen, recordOf, now, g))
      ensures d !in s.documents ==> (GoodFollows(s', d, g) <==> NothingToAdd(seen, now, g))
    {
      GoodIsRightIff(s, s', d, seen, recordOf, now, tasks, g);
    }
  }

  /**
   An edit leaves stock and records in step with the lines exactly when, for every good, what it set out to do from its
   reads is what the document needed when its transaction ran.
   */
  lemma EditIsRightIff(s: State, s': State, d: int, seen: Lines, recordOf: map<int, int>, now: Lines)
    requires IdsAreOld(s) && Follows(s) && ReadBefore(s, d, recordOf) && forall g :: g in seen ==> g in recordOf
    requires EditTx(s, s', d, seen, recordOf, now)
    ensures Follows(s') <==> EditFits(s, d, seen, recordOf, now)
  {
    var tasks: map<int, Task> :| (forall g :: IsTask(tasks, g, PurchaseTask(seen, now, recordOf, g))) &&
                                 TasksDone(s.records, s'.records, d, tasks, s.nextRecord);
    FollowsGoodByGood(s);
    FollowsGoodByGood(s');
    GoodsAreRightIff(s, s', d, seen, recordOf, now, tasks);
    forall e, g | e != d
      ensures GoodFollows(s', e, g)
    {
      OthersStay(s, s', d, seen, recordOf, now, tasks, e, g);
    }
  }

  lemma EditTxKeepsIds(s: State, s': State, d: int, seen: Lines, recordOf: map<int, int>, now: Lines)
    requires IdsAreOld(s) && ReadBefore(s, d, recordOf) && (forall g :: g in seen ==> g in recordOf)
    requires EditTx(s, s', d, seen, recordOf, now)
    ensures IdsAreOld(s')
  {
    var tasks: map<int, Task> :| (forall g :: IsTask(tasks, g, PurchaseTask(seen, now, recordOf, g))) &&
                                 TasksDone(s.records, s'.records, d, tasks, s.nextRecord);
    NewRecords(s, s', d, seen, recordOf, now, tasks);
    forall r | r in s.records {
      OldRecords(s, s', d, seen, recordOf, now, tasks, r);
    }
  }

  // ---------------------------------------------------------------- reads that are still current

  /** What an edit would read now. */
  ghost predicate ReadNow(s: State, d: int, seen: Lines, recordOf: map<int, int>) {
    && d in s.documents && s.documents[d].lines == seen
    && (forall g :: g in recordOf ==> IsRecordOf(s.records, recordOf[g], d, g))
    && (forall g :: g in seen ==> g in recordOf)
  }

  /** Nobody else has changed the document since it was read: the edit is right. */
  lemma CurrentReadsFit(s: State, d: int, seen: Lines, recordOf: map<int, int>, now: Lines)
    requires Follows(s) && ReadNow(s, d, seen, recordOf)
    ensures EditFits(s, d, seen, recordOf, now) && DeleteFits(s, d, seen)
  {
  }

  /** Then each record follows its line: gone with it, corrected with its price, untouched with it. */
  lemma CurrentReadsKeepRecords(s: State, s': State, d: int, seen: Lines, recordOf: map<int, int>, now: Lines, r: int)
    requires IdsAreOld(s) && Follows(s) && ReadNow(s, d, seen, recordOf) && EditTx(s, s', d, seen, recordOf, now)
    requires r in s.records
    ensures s.records[r].document != d ==> r in s'.records && s'.records[r] == s.records[r]
    ensures s.records[r].document == d ==>
              var g := s.records[r].good;
              && (r in s'.records <==> g in now)
              && (g in now ==> s'.records[r] == s.records[r].(price := now[g].price))
  {
    var tasks: map<int, Task> :| (forall g :: IsTask(tasks, g, PurchaseTask(seen, now, recordOf, g))) &&
                                 TasksDone(s.records, s'.records, d, tasks, s.nextRecord);
    OldRecords(s, s', d, seen, recordOf, now, tasks, r);
    FollowsGoodByGood(s);
    assert GoodFollows(s, s.records[r].document, s.records[r].good);
    assert IsRecordOf(s.records, r, s.records[r].document, s.records[r].good);
    var before := RecordBefore(s, s.records[r].document, s.records[r].good);
  }
}

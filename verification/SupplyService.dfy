/**
 The supply service. What an edit or a deletion reads before its transaction comes from one call here and goes into
 another, so any other calls may run in between. The warehouse may turn a movement down, which is a parameter.
 */
module SupplyService {
  import opened Common
  import opened Supply
  import opened SupplyTheorems

  datatype Error = NotFound | TooLate | MissingRecord | Refused

  class SupplyService {
    var documents: map<int, Document>
    var records: map<int, Record>
    var movements: seq<Movement>
    var nextDocument: int
    var nextRecord: int

    ghost function View(): State
      reads this
    {
      State(documents, records, movements, nextDocument, nextRecord)
    }

    /** Ids are in order, and stock and purchase records are in step with the lines. */
    ghost predicate Valid()
      reads this
    {
      IdsAreOld(View()) && Follows(View())
    }

    constructor ()
      ensures Valid() && documents == map[]
    {
      documents, records, movements, nextDocument, nextRecord := map[], map[], [], 0, 0;
    }

    // -------------------------------------------------------------- warehouse

    /** One movement per item, in or out. */
    method MoveGoods(d: int, items: map<int, int>, outwards: bool)
      modifies this`movements
      ensures forall e, g :: Net(movements, e, g) == Net(old(movements), e, g) + if e == d then Moves(items, g, outwards) else 0
      ensures forall m :: m in movements ==> m in old(movements) || m.document == d
    {
      var pending := items.Keys;
      while pending != {}
        invariant forall g :: g in pending ==> g in items
        invariant forall e, g :: Net(movements, e, g) ==
                                 Net(old(movements), e, g) +
                                 if e == d && g in items && g !in pending then Moves(items, g, outwards) else 0
        invariant forall m :: m in movements ==> m in old(movements) || m.document == d
        decreases |pending|
      {
        var good := Pick(pending);
        pending := pending - {good};
        var m := Movement(d, good, if outwards then -items[good] else items[good]);
        forall e, g {
          NetOfOne(movements, m, e, g);
        }
        movements := movements + [m];
      }
    }

    // -------------------------------------------------------------- purchase records

    /** The records of a document, by good. */
    method RecordsByGood(d: int) returns (recordOf: map<int, int>)
      ensures forall g :: g in recordOf ==> IsRecordOf(records, recordOf[g], d, g)
      ensures forall r :: r in records && records[r].document == d ==> records[r].good in recordOf
    {
      var pending := records.Keys;
      recordOf := map[];
      while pending != {}
        invariant forall r :: r in pending ==> r in records
        invariant forall g :: g in recordOf ==> IsRecordOf(records, recordOf[g], d, g)
        invariant forall r :: r in records && r !in pending && records[r].document == d ==> records[r].good in recordOf
        decreases |pending|
      {
        var r := Pick(pending);
        pending := pending - {r};
        if records[r].document == d {
          recordOf := recordOf[records[r].good := r];
        }
      }
    }

    /** A record for each good, under new ids. */
    method CreateRecords(d: int, prices: map<int, real>)
      requires forall r :: r in records ==> r < nextRecord
      modifies this`records, this`nextRecord
      ensures Created(old(records), records, d, prices, old(nextRecord))
      ensures old(nextRecord) <= nextRecord && forall r :: r in records ==> r < nextRecord
    {
      var pending := prices.Keys;
      ghost var done: map<int, real> := map[];
      while pending != {}
        invariant old(nextRecord) <= nextRecord && forall r :: r in records ==> r < nextRecord
        invariant forall g :: g in pending ==> g in prices
        invariant forall g :: g in done <==> g in prices && g !in pending
        invariant forall g :: g in done ==> done[g] == prices[g]
        invariant Created(old(records), records, d, done, old(nextRecord))
        decreases |pending|
      {
        var good := Pick(pending);
        OneMoreCreated(old(records), records, d, done, old(nextRecord), nextRecord, good, prices[good]);
        done := done[good := prices[good]];
        pending := pending - {good};
        records := records[nextRecord := Record(d, good, prices[good])];
        nextRecord := nextRecord + 1;
      }
      forall g
        ensures g in done <==> g in prices
        ensures g in done ==> done[g] == prices[g]
      {
        assert g !in pending;
      }
      SameMap(done, prices);
    }

    /** Sets prices by record id; an id that is gone is passed over. */
    method CorrectRecords(tasks: map<int, Task>)
      modifies this`records
      ensures CorrectedTo(tasks, old(records), records)
    {
      var pending := tasks.Keys;
      while pending != {}
        invariant forall g :: g in pending ==> g in tasks
        invariant CorrectedSoFar(tasks, pending, old(records), records)
        decreases |pending|
      {
        var g := Pick(pending);
        OneMoreCorrected(tasks, pending, old(records), records, g);
        pending := pending - {g};
        if tasks[g].Edit? && tasks[g].recordId in records {
          records := records[tasks[g].recordId := records[tasks[g].recordId].(price := tasks[g].price)];
        }
      }
    }

    // -------------------------------------------------------------- recording

    /** A new document: its lines are received into stock and get their purchase records, all in one transaction. */
    method RecordSupply(lines: Lines, now: int, accepted: bool) returns (r: Result<int, Error>)
      requires IdsAreOld(View())
      modifies this
      ensures IdsAreOld(View()) && (old(Valid()) ==> Valid())
      ensures r.Ok? <==> accepted
      ensures r.Ok? ==> r.value == old(nextDocument) && RecordTx(old(View()), View(), lines, now)
      ensures r.Err? ==> View() == old(View())
    {
      if !accepted {
        return Err(Refused);
      }
      ghost var before := View();
      var id := nextDocument;
      nextDocument := nextDocument + 1;
      documents := documents[id := Document(lines, now)];
      MoveGoods(id, Quantities(lines), false);
      CreateRecords(id, Prices(lines));
      RecordTxKeepsIds(before, View(), lines, now);
      if Follows(before) {
        RecordTxKeepsFollows(before, View(), lines, now);
      }
      return Ok(id);
    }

    // -------------------------------------------------------------- editing

    /** What an edit or a deletion reads first; too late means three days after the supply. */
    method FindForChange(d: int, clock: int) returns (r: Result<Lines, Error>)
      ensures r.Ok? <==> d in documents && clock <= documents[d].suppliedAt + 3 * 24 * 60 * 60 * 1000
      ensures r.Err? ==> r.error == if d in documents then TooLate else NotFound
      ensures r.Ok? ==> r.value == documents[d].lines
    {
      if d !in documents {
        return Err(NotFound);
      }
      if documents[d].suppliedAt + EDIT_WINDOW < clock {
        return Err(TooLate);
      }
      return Ok(documents[d].lines);
    }

    /** Which stock movements and record changes lead from the old lines to the new: first the lines there were. */
    method Difference(was: Lines, now: Lines, recordOf: map<int, int>)
      returns (updateStock: map<int, Change>, purchaseTasks: map<int, Task>)
      requires forall g :: g in was ==> g in recordOf
      ensures forall g :: IsTask(updateStock, g, StockTask(was, now, g))
      ensures forall g :: IsTask(purchaseTasks, g, PurchaseTask(was, now, recordOf, g))
    {
      updateStock, purchaseTasks := OldLines(was, now, recordOf);
      updateStock, purchaseTasks := AddNewLines(was, now, recordOf, updateStock, purchaseTasks);
    }

    method OldLines(was: Lines, now: Lines, recordOf: map<int, int>)
      returns (updateStock: map<int, Change>, purchaseTasks: map<int, Task>)
      requires forall g :: g in was ==> g in recordOf
      ensures forall g :: IsTask(updateStock, g, if g in was then StockTask(was, now, g) else None)
      ensures forall g :: IsTask(purchaseTasks, g, if g in was then PurchaseTask(was, now, recordOf, g) else None)
    {
      updateStock, purchaseTasks := map[], map[];
      var pending := was.Keys;
      NoTasksYet(updateStock);
      NoTasksYet(purchaseTasks);
      assert forall g :: g in was ==> g in pending;
      while pending != {}
        invariant forall g :: g in pending ==> g in was
        invariant forall g :: IsTask(updateStock, g, if g in was && g !in pending then StockTask(was, now, g) else None)
        invariant forall g :: IsTask(purchaseTasks, g,
                                     if g in was && g !in pending then PurchaseTask(was, now, recordOf, g) else None)
        decreases |pending|
      {
        var g := Pick(pending);
        pending := pending - {g};
        var delta := Quantity(now, g) - was[g].quantity;
        if delta != 0 {
          updateStock := updateStock[g := Change(0 < delta, if 0 < delta then delta else -delta)];
        }
        if g !in now {
          purchaseTasks := purchaseTasks[g := Remove(recordOf[g])];
        } else if was[g].price != now[g].price {
          purchaseTasks := purchaseTasks[g := Edit(recordOf[g], now[g].price)];
        }
      }
    }

    /** Then the lines that are new. */
    method AddNewLines(was: Lines, now: Lines, ghost recordOf: map<int, int>, stockSoFar: map<int, Change>,
                       tasksSoFar: map<int, Task>)
      returns (updateStock: map<int, Change>, purchaseTasks: map<int, Task>)
      requires forall g :: g in was ==> g in recordOf
      requires forall g :: IsTask(stockSoFar, g, if g in was then StockTask(was, now, g) else None)
      requires forall g :: IsTask(tasksSoFar, g, if g in was then PurchaseTask(was, now, recordOf, g) else None)
      ensures forall g :: IsTask(updateStock, g, StockTask(was, now, g))
      ensures forall g :: IsTask(purchaseTasks, g, PurchaseTask(was, now, recordOf, g))
    {
      updateStock, purchaseTasks := stockSoFar, tasksSoFar;
      var pending := now.Keys;
      while pending != {}
        invariant forall g :: g in pending ==> g in now
        invariant forall g :: IsTask(updateStock, g, if g in was || g !in pending then StockTask(was, now, g) else None)
        invariant forall g :: IsTask(purchaseTasks, g,
                                     if g in was || g !in pending then PurchaseTask(was, now, recordOf, g) else None)
        decreases |pending|
      {
        var g := Pick(pending);
        pending := pending - {g};
        if g !in was {
          updateStock := updateStock[g := Change(true, now[g].quantity)];
          purchaseTasks := purchaseTasks[g := New(now[g].price)];
        }
      }
    }

    /** Receipts, then issues. */
    method UpdateStock(d: int, tasks: map<int, Change>, ghost was: Lines, ghost now: Lines)
      requires forall g :: IsTask(tasks, g, StockTask(was, now, g))
      modifies this`movements
      ensures forall e, g :: Net(movements, e, g) ==
                             Net(old(movements), e, g) + if e == d then Quantity(now, g) - Quantity(was, g) else 0
      ensures forall m :: m in movements ==> m in old(movements) || m.document == d
    {
      MoveGoods(d, Selected(tasks, true), false);
      MoveGoods(d, Selected(tasks, false), true);
      forall g
        ensures Moves(Selected(tasks, true), g, false) + Moves(Selected(tasks, false), g, true) ==
                Quantity(now, g) - Quantity(was, g)
      {
        assert IsTask(tasks, g, StockTask(was, now, g));
        StockTasksNet(was, now, tasks, g);
      }
    }

    /** Removals, creations and corrections of purchase records, by id. */
    method UpdateRecords(d: int, tasks: map<int, Task>)
      requires forall r :: r in records ==> r < nextRecord
      modifies this`records, this`nextRecord
      ensures TasksDone(old(records), records, d, tasks, old(nextRecord))
      ensures old(nextRecord) <= nextRecord && forall r :: r in records ==> r < nextRecord
    {
      records := records - RemovedIds(tasks);
      CreateRecords(d, NewPrices(tasks));
      CorrectRecords(tasks);
    }

    /**
     An edit's transaction, with what was read before it. From a state in step it leads to one exactly when the reads
     still fit; an edit that lacks the record of a line it saw, or is turned down, changes nothing.
     */
    method CommitEdit(d: int, seen: Lines, recordOf: map<int, int>, now: Lines, accepted: bool) returns (r: Result<(), Error>)
      requires IdsAreOld(View()) && ReadBefore(View(), d, recordOf)
      modifies this
      ensures IdsAreOld(View())
      ensures r.Ok? <==> accepted && forall g :: g in seen ==> g in recordOf
      ensures r.Err? ==> r.error == if exists g :: g in seen && g !in recordOf then MissingRecord else Refused
      ensures r.Ok? ==> EditTx(old(View()), View(), d, seen, recordOf, now)
      ensures r.Ok? && old(Valid()) ==> (Valid() <==> EditFits(old(View()), d, seen, recordOf, now))
      ensures r.Err? ==> View() == old(View())
    {
      if exists g :: g in seen && g !in recordOf {
        return Err(MissingRecord);
      }
      if !accepted {
        return Err(Refused);
      }
      ghost var before := View();
      var updateStock, purchaseTasks := Difference(seen, now, recordOf);
      UpdateStock(d, updateStock, seen, now);
      UpdateRecords(d, purchaseTasks);
      if d in documents {
        documents := documents[d := documents[d].(lines := now)];
      }
      assert EditTx(before, View(), d, seen, recordOf, now);
      EditTxKeepsIds(before, View(), d, seen, recordOf, now);
      if Follows(before) {
        EditIsRightIff(before, View(), d, seen, recordOf, now);
      }
      return Ok(());
    }

    /** The whole call, when no other call runs between its reads and its transaction. */
    method EditDocument(d: int, now: Lines, clock: int, accepted: bool) returns (r: Result<(), Error>)
      requires Valid()
      modifies this
      ensures Valid()
      ensures r.Ok? <==> d in old(documents) && clock <= old(documents)[d].suppliedAt + EDIT_WINDOW && accepted
      ensures r.Err? ==>
                r.error == if d !in old(documents) then NotFound
                           else if old(documents)[d].suppliedAt + 3 * 24 * 60 * 60 * 1000 < clock then TooLate else Refused
      ensures r.Ok? ==> documents == old(documents)[d := old(documents)[d].(lines := now)]
      ensures r.Ok? ==> forall s :: s in old(records) ==>
                if old(records)[s].document != d then s in records && records[s] == old(records)[s]
                else && (s in records <==> old(records)[s].good in now)
                     && (s in records ==> records[s] == old(records)[s].(price := now[old(records)[s].good].price))
      ensures r.Err? ==> View() == old(View())
    {
      var found := FindForChange(d, clock);
      if found.Err? {
        return Err(found.error);
      }
      var recordOf := RecordsByGood(d);
      ghost var before := View();
      LinesHaveRecords(before, d, recordOf);
      CurrentReadsFit(before, d, found.value, recordOf, now);
      r := CommitEdit(d, found.value, recordOf, now, accepted);
      if r.Ok? {
        forall s | s in before.records {
          CurrentReadsKeepRecords(before, View(), d, found.value, recordOf, now, s);
        }
      }
    }

    // -------------------------------------------------------------- deleting

    /** A deletion's transaction, with the lines that were read before it; it reads the records itself. */
    method CommitDelete(d: int, seen: Lines, accepted: bool) returns (r: Result<(), Error>)
      requires IdsAreOld(View()) && d < nextDocument
      modifies this
      ensures IdsAreOld(View())
      ensures r.Ok? <==> accepted
      ensures r.Ok? ==> DeleteTx(old(View()), View(), d, seen)
      ensures r.Ok? && old(Valid()) ==> (Valid() <==> DeleteFits(old(View()), d, seen))
      ensures r.Err? ==> View() == old(View())
    {
      if !accepted {
        return Err(Refused);
      }
      ghost var before := View();
      records := map r | r in records && records[r].document != d :: records[r];
      MoveGoods(d, Quantities(seen), true);
      documents := documents - {d};
      DeleteTxKeepsIds(before, View(), d, seen);
      if Follows(before) {
        DeleteIsRightIff(before, View(), d, seen);
      }
      return Ok(());
    }

    /** The whole call, when no other call runs between its read and its transaction. */
    method DeleteDocument(d: int, clock: int, accepted: bool) returns (r: Result<(), Error>)
      requires Valid()
      modifies this
      ensures Valid()
      ensures r.Ok? <==> d in old(documents) && clock <= old(documents)[d].suppliedAt + EDIT_WINDOW && accepted
      ensures r.Ok? ==> documents == old(documents) - {d} && forall g :: Net(movements, d, g) == 0
      ensures r.Ok? ==> forall s :: s in records ==> s in old(records) && records[s].document != d
      ensures r.Err? ==> View() == old(View())
    {
      var found := FindForChange(d, clock);
      if found.Err? {
        return Err(found.error);
      }
      r := CommitDelete(d, found.value, accepted);
      if r.Ok? {
        assert LinesOf(documents, d) == map[];
      }
    }
  }

  function Quantities(lines: Lines): map<int, int> {
    map g | g in lines :: lines[g].quantity
  }

  function Selected(tasks: map<int, Change>, incr: bool): map<int, int> {
    map g | g in tasks && tasks[g].incr == incr :: tasks[g].quantity
  }

  /** What the items add to a good's stock. */
  function Moves(items: map<int, int>, good: int, outwards: bool): int {
    if good !in items then 0 else if outwards then -items[good] else items[good]
  }

  // ---------------------------------------------------------------- facts about records

  lemma OneMoreCreated(before: map<int, Record>, now: map<int, Record>, d: int, prices: map<int, real>, from: int, next: int,
                       good: int, price: real)
    requires Created(before, now, d, prices, from) && good !in prices && from <= next
    requires forall r :: r in now ==> r < next
    ensures Created(before, now[next := Record(d, good, price)], d, prices[good := price], from)
  {
    var after, prices' := now[next := Record(d, good, price)], prices[good := price];
    assert next !in before;
    forall g | g in prices'
      ensures exists r :: r !in before && IsRecordOf(after, r, d, g) && after[r].price == prices'[g]
    {
      if g == good {
        assert IsRecordOf(after, next, d, g);
      } else {
        var r :| r !in before && IsRecordOf(now, r, d, g) && now[r].price == prices[g];
        assert IsRecordOf(after, r, d, g);
      }
    }
  }

  /** Every task but the pending ones has corrected its record. */
  ghost predicate CorrectedSoFar(tasks: map<int, Task>, pending: set<int>, before: map<int, Record>, after: map<int, Record>) {
    && after.Keys == before.Keys
    && (forall r :: r in before ==> after[r] == before[r].(price := after[r].price))
    && (forall r :: r in before ==>
          if CorrectedOutside(tasks, pending, r) then Corrects(tasks, r, after[r].price) else after[r].price == before[r].price)
  }

  predicate CorrectedOutside(tasks: map<int, Task>, pending: set<int>, r: int) {
    exists g :: g in tasks && g !in pending && tasks[g].Edit? && tasks[g].recordId == r
  }

  lemma OneMoreCorrected(tasks: map<int, Task>, pending: set<int>, before: map<int, Record>, after: map<int, Record>, g: int)
    requires CorrectedSoFar(tasks, pending, before, after) && g in pending && g in tasks
    ensures var next := if tasks[g].Edit? && tasks[g].recordId in after
                        then after[tasks[g].recordId := after[tasks[g].recordId].(price := tasks[g].price)] else after;
            CorrectedSoFar(tasks, pending - {g}, before, next)
  {
    forall r
      ensures CorrectedOutside(tasks, pending - {g}, r) <==>
              CorrectedOutside(tasks, pending, r) || (tasks[g].Edit? && tasks[g].recordId == r)
    {
      if CorrectedOutside(tasks, pending, r) {
        var h :| h in tasks && h !in pending && tasks[h].Edit? && tasks[h].recordId == r;
        assert h !in pending - {g};
      }
      if tasks[g].Edit? && tasks[g].recordId == r {
        assert g !in pending - {g};
      }
    }
    assert tasks[g].Edit? ==> Corrects(tasks, tasks[g].recordId, tasks[g].price);
  }

  /** In step, an edit finds a record for every line. */
  lemma LinesHaveRecords(s: State, d: int, recordOf: map<int, int>)
    requires Follows(s) && IdsAreOld(s) && d in s.documents
    requires forall g :: g in recordOf ==> IsRecordOf(s.records, recordOf[g], d, g)
    requires forall r :: r in s.records && s.records[r].document == d ==> s.records[r].good in recordOf
    ensures ReadNow(s, d, s.documents[d].lines, recordOf) && ReadBefore(s, d, recordOf)
  {
    forall g | g in s.documents[d].lines
      ensures g in recordOf
    {
      assert HasRecord(s.records, d, g, LinesOf(s.documents, d)[g].price);
      var r :| IsRecordOf(s.records, r, d, g) && s.records[r].price == LinesOf(s.documents, d)[g].price;
    }
  }
}

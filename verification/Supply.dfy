/**
 Supply documents: the stock movements and purchase records that follow from recording, editing and
 deleting them. Lines are keyed by good.

 An edit reads the document's lines, then its purchase records, and only then opens the transaction
 that applies the difference; a deletion reads the lines before its transaction too. What was read is
 a parameter of the transaction, so other transactions may have run in between.
 */
module Supply {
  import opened Common

  datatype Line = Line(quantity: int, price: real)

  type Lines = map<int, Line>

  datatype Document = Document(lines: Lines, suppliedAt: int)

  datatype Record = Record(document: int, good: int, price: real)

  /** A stock movement of a document; issues are negative. */
  datatype Movement = Movement(document: int, good: int, quantity: int)

  /** Ids are handed out in order and never again. */
  datatype State = State(
    documents: map<int, Document>,
    records: map<int, Record>,
    movements: seq<Movement>,
    nextDocument: int,
    nextRecord: int)

  /** Three days, in milliseconds. */
  const EDIT_WINDOW := 259200000

  datatype Change = Change(incr: bool, quantity: int)

  datatype Task =
    | Remove(recordId: int)
    | New(price: real)
    | Edit(recordId: int, price: real)

  // ---------------------------------------------------------------- what must hold

  function Quantity(lines: Lines, good: int): int {
    if good in lines then lines[good].quantity else 0
  }

  /** What a document has added to the stock of a good. */
  function Net(movements: seq<Movement>, document: int, good: int): int {
    if |movements| == 0 then 0
    else
      var last := movements[|movements| - 1];
      Net(movements[..|movements| - 1], document, good) +
      if last.document == document && last.good == good then last.quantity else 0
  }

  lemma NetOfOne(movements: seq<Movement>, m: Movement, document: int, good: int)
    ensures Net(movements + [m], document, good) ==
            Net(movements, document, good) + if m.document == document && m.good == good then m.quantity else 0
  {
    assert (movements + [m])[..|movements|] == movements;
  }

  lemma {:induction false} NetOfNone(movements: seq<Movement>, document: int, good: int)
    requires forall m :: m in movements ==> m.document != document
    ensures Net(movements, document, good) == 0
  {
    if |movements| > 0 {
      NetOfNone(movements[..|movements| - 1], document, good);
    }
  }

  /** The current lines of a document, none once it is gone. */
  function LinesOf(documents: map<int, Document>, d: int): Lines {
    if d in documents then documents[d].lines else map[]
  }

  ghost predicate StockFollows(documents: map<int, Document>, movements: seq<Movement>) {
    forall d, g :: Net(movements, d, g) == Quantity(LinesOf(documents, d), g)
  }

  /** `r` is the record of line `g` of document `d`. */
  predicate IsRecordOf(records: map<int, Record>, r: int, d: int, g: int) {
    r in records && records[r].document == d && records[r].good == g
  }

  ghost predicate HasRecord(records: map<int, Record>, d: int, g: int, price: real) {
    exists r :: IsRecordOf(records, r, d, g) && records[r].price == price
  }

  /** One record per line, at the line's price, and no others. */
  ghost predicate RecordsFollow(documents: map<int, Document>, records: map<int, Record>) {
    && (forall d, g :: g in LinesOf(documents, d) ==> HasRecord(records, d, g, LinesOf(documents, d)[g].price))
    && (forall r :: r in records ==> records[r].good in LinesOf(documents, records[r].document))
    && OnePerLine(records)
  }

  ghost predicate OnePerLine(records: map<int, Record>) {
    forall r, s | r in records && s in records && records[r].document == records[s].document ::
      records[r].good == records[s].good ==> r == s
  }

  /** Stock and purchase records are in step with the lines. */
  ghost predicate Follows(s: State) {
    StockFollows(s.documents, s.movements) && RecordsFollow(s.documents, s.records)
  }

  /** Ids in use are below the next ones; this holds whatever the transactions read. */
  ghost predicate IdsAreOld(s: State) {
    && (forall d :: d in s.documents ==> d < s.nextDocument)
    && (forall m :: m in s.movements ==> m.document < s.nextDocument)
    && (forall r :: r in s.records ==> r < s.nextRecord && s.records[r].document < s.nextDocument)
  }

  // ---------------------------------------------------------------- the difference between two versions

  /** What an edit asks of the warehouse for one good. */
  function StockTask(was: Lines, now: Lines, good: int): Option<Change> {
    if good in was then
      var delta := Quantity(now, good) - was[good].quantity;
      if delta == 0 then None
      else Some(Change(0 < delta, if 0 < delta then delta else -delta))
    else if good in now then Some(Change(true, now[good].quantity))
    else None
  }

  /** What it asks of the purchase records. */
  function PurchaseTask(was: Lines, now: Lines, recordOf: map<int, int>, good: int): Option<Task>
    requires good in was ==> good in recordOf
  {
    if good in was then
      if good !in now then Some(Remove(recordOf[good]))
      else if was[good].price == now[good].price then None
      else Some(Edit(recordOf[good], now[good].price))
    else if good in now then Some(New(now[good].price))
    else None
  }

  function Received(tasks: map<int, Change>, good: int): int {
    if good in tasks && tasks[good].incr then tasks[good].quantity else 0
  }

  function Issued(tasks: map<int, Change>, good: int): int {
    if good in tasks && !tasks[good].incr then tasks[good].quantity else 0
  }

  /** `tasks` holds just this for the good. */
  ghost predicate IsTask<T>(tasks: map<int, T>, good: int, task: Option<T>) {
    (good in tasks <==> task.Some?) && (good in tasks ==> Some(tasks[good]) == task)
  }

  lemma NoTasksYet<T>(tasks: map<int, T>)
    requires tasks == map[]
    ensures forall g, task: Option<T> :: task.None? ==> IsTask(tasks, g, task)
  {
  }

  /** The changes take the stock from the one version of the lines to the other. */
  lemma StockTasksNet(was: Lines, now: Lines, tasks: map<int, Change>, good: int)
    requires IsTask(tasks, good, StockTask(was, now, good))
    ensures Received(tasks, good) - Issued(tasks, good) == Quantity(now, good) - Quantity(was, good)
  {
  }

  // ---------------------------------------------------------------- transactions

  /** `after` is `before` and one record per price, under ids from `from` on. */
  ghost predicate Created(before: map<int, Record>, after: map<int, Record>, d: int, prices: map<int, real>, from: int) {
    && (forall r :: r in before ==> r in after && after[r] == before[r])
    && (forall r :: r in after && r !in before ==>
          from <= r && after[r].document == d && after[r].good in prices && after[r].price == prices[after[r].good])
    && (forall g :: g in prices ==> exists r :: r !in before && IsRecordOf(after, r, d, g) && after[r].price == prices[g])
    && (forall r, s :: r in after && r !in before && s in after && s !in before && after[r].good == after[s].good ==> r == s)
  }

  function Prices(lines: Lines): map<int, real> {
    map g | g in lines :: lines[g].price
  }

  function RemovedIds(tasks: map<int, Task>): (ids: set<int>)
    ensures forall g :: g in tasks && tasks[g].Remove? ==> tasks[g].recordId in ids
    ensures forall r :: r in ids ==> exists g :: g in tasks && tasks[g] == Remove(r)
  {
    set g | g in tasks && tasks[g].Remove? :: tasks[g].recordId
  }

  function NewPrices(tasks: map<int, Task>): map<int, real> {
    map g | g in tasks && tasks[g].New? :: tasks[g].price
  }

  /** One of the tasks corrects record `r` to this price. */
  predicate Corrects(tasks: map<int, Task>, r: int, price: real) {
    exists g :: g in tasks && tasks[g] == Edit(r, price)
  }

  predicate IsCorrected(tasks: map<int, Task>, r: int) {
    exists g :: g in tasks && tasks[g].Edit? && tasks[g].recordId == r
  }

  /** Prices corrected by record id, wherever the record still exists. */
  ghost predicate CorrectedTo(tasks: map<int, Task>, before: map<int, Record>, after: map<int, Record>) {
    && after.Keys == before.Keys
    && (forall r :: r in before ==> after[r] == before[r].(price := after[r].price))
    && (forall r :: r in before ==>
          if IsCorrected(tasks, r) then Corrects(tasks, r, after[r].price) else after[r].price == before[r].price)
  }

  /** The purchase records after a transaction's removals, creations and corrections, in that order. */
  ghost predicate TasksDone(before: map<int, Record>, after: map<int, Record>, d: int, tasks: map<int, Task>, next: int) {
    exists made: map<int, Record> ::
      Created(before - RemovedIds(tasks), made, d, NewPrices(tasks), next) && CorrectedTo(tasks, made, after)
  }

  ghost predicate SameElsewhere(before: seq<Movement>, after: seq<Movement>, d: int) {
    && (forall e, g :: e != d ==> Net(after, e, g) == Net(before, e, g))
    && (forall m :: m in after ==> m in before || m.document == d)
  }

  /** Recording is one transaction from start to end. */
  ghost predicate RecordTx(s: State, s': State, lines: Lines, now: int) {
    var d := s.nextDocument;
    && s'.documents == s.documents[d := Document(lines, now)] && s'.nextDocument == d + 1
    && (forall g :: Net(s'.movements, d, g) == Net(s.movements, d, g) + Quantity(lines, g))
    && SameElsewhere(s.movements, s'.movements, d)
    && Created(s.records, s'.records, d, Prices(lines), s.nextRecord)
    && s.nextRecord <= s'.nextRecord && (forall r :: r in s'.records ==> r < s'.nextRecord)
  }

  /** The transaction of an edit that saw the lines `seen` and the records `recordOf`; a missing document is not updated. */
  ghost predicate EditTx(s: State, s': State, d: int, seen: Lines, recordOf: map<int, int>, now: Lines)
    requires forall g :: g in seen ==> g in recordOf
  {
    && s'.documents == (if d in s.documents then s.documents[d := s.documents[d].(lines := now)] else s.documents)
    && s'.nextDocument == s.nextDocument
    && (forall g :: Net(s'.movements, d, g) == Net(s.movements, d, g) + Quantity(now, g) - Quantity(seen, g))
    && SameElsewhere(s.movements, s'.movements, d)
    && (exists tasks: map<int, Task> ::
          (forall g :: IsTask(tasks, g, PurchaseTask(seen, now, recordOf, g))) &&
          TasksDone(s.records, s'.records, d, tasks, s.nextRecord))
    && s.nextRecord <= s'.nextRecord && (forall r :: r in s'.records ==> r < s'.nextRecord)
  }

  /** The transaction of a deletion that saw the lines `seen`; it reads the records itself. */
  ghost predicate DeleteTx(s: State, s': State, d: int, seen: Lines) {
    && s'.documents == s.documents - {d}
    && s'.nextDocument == s.nextDocument && s'.nextRecord == s.nextRecord
    && (forall g :: Net(s'.movements, d, g) == Net(s.movements, d, g) - Quantity(seen, g))
    && SameElsewhere(s.movements, s'.movements, d)
    && s'.records == map r | r in s.records && s.records[r].document != d :: s.records[r]
  }

  // ---------------------------------------------------------------- what a transaction must have seen

  /** What the edit is about to do for this good is still what brings the document to its new lines. */
  predicate GoodFits(s: State, d: int, seen: Lines, recordOf: map<int, int>, now: Lines, g: int)
    requires g in seen ==> g in recordOf
  {
    var lines := LinesOf(s.documents, d);
    && Quantity(lines, g) == Quantity(seen, g)
    && match PurchaseTask(seen, now, recordOf, g)
       case Some(New(_)) => g !in lines
       case Some(Remove(r)) => g in lines ==> IsRecordOf(s.records, r, d, g)
       case Some(Edit(r, price)) => IsRecordOf(s.records, r, d, g) || (g in lines && lines[g].price == price)
       case None => if g in now then g in lines && lines[g].price == now[g].price else g !in lines
  }

  /** For a document deleted meanwhile: the edit must have nothing to add. */
  predicate NothingToAdd(seen: Lines, now: Lines, g: int) {
    Quantity(now, g) == Quantity(seen, g) && (g in now ==> g in seen)
  }

  ghost predicate EditFits(s: State, d: int, seen: Lines, recordOf: map<int, int>, now: Lines)
    requires forall g :: g in seen ==> g in recordOf
  {
    if d in s.documents then forall g :: GoodFits(s, d, seen, recordOf, now, g)
    else forall g :: NothingToAdd(seen, now, g)
  }

  ghost predicate DeleteFits(s: State, d: int, seen: Lines) {
    forall g :: Quantity(LinesOf(s.documents, d), g) == Quantity(seen, g)
  }

  /** The record ids were read at some earlier time: what is left of them are still records of these lines. */
  ghost predicate ReadBefore(s: State, d: int, recordOf: map<int, int>) {
    && d < s.nextDocument
    && (forall g :: g in recordOf ==> recordOf[g] < s.nextRecord &&
                                      (recordOf[g] in s.records ==> IsRecordOf(s.records, recordOf[g], d, g)))
  }
}

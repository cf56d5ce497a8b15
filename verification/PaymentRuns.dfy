/** Money and rows over every run of payment steps. */
module PaymentRuns {
  import opened Common
  import opened Payment

  // ---------------------------------------------------------------- what must hold

  predicate IsFor(m: Move, p: int) {
    m.key.PaymentKey? && m.key.payment == p
  }

  /** What the payer's wallet has paid for payment `p`: withdrawals less deposits under its keys. */
  function Net(ledger: seq<Move>, p: int): int {
    if |ledger| == 0 then 0
    else Net(ledger[..|ledger| - 1], p) - (if IsFor(ledger[|ledger| - 1], p) then Gain(ledger[|ledger| - 1]) else 0)
  }

  function RowShare(row: Row): int {
    match row.paidBy
    case Some(Wallet) => Value(row.amount)
    case Some(Partial) => Value(row.walletAmount)
    case _ => 0
  }

  /** What the row says the wallet should have paid. */
  function Expected(row: Row): int {
    match row.status
    case Processing => RowShare(row)
    case Paid => RowShare(row)
    case Refunded => if row.refundType == Some(Part) then RowShare(row) - Value(row.refundedAmount) else 0
    case _ => 0
  }

  /** The row passes every CHECK and its amounts are the order's. */
  predicate RowGood(o: Order, row: Row) {
    && Checks(row)
    && (row.paidBy.Some? ==> row.customerId == Some(o.customer))
    && (row.status.Processing? ==> row.paidBy != Some(Wallet))
    && (row.paidBy == Some(Wallet) || row.paidBy == Some(Gateway) ==> row.amount == Some(o.total))
    && (row.paidBy == Some(Partial) ==> Value(row.walletAmount) + Value(row.gatewayAmount) == o.total)
  }

  /** Only the payer's wallet moved, each move of the kind its key says; the current attempt is not refunded yet. */
  ghost predicate MovesGood(o: Order, row: Row, ledger: seq<Move>, p: int) {
    && (forall m :: m in ledger && IsFor(m, p) ==> m.customer == o.customer && m.operation == m.key.operation)
    && (row.status.Processing? || row.status.Paid? ==>
          forall m :: m in ledger && IsFor(m, p) && m.key.operation.Deposit? ==> Some(m.key.at) != row.settleRequestedAt)
  }

  /** The gateway's ticket is for what the wallet did not pay, and a full refund has reversed it. */
  predicate TicketGood(o: Order, row: Row, tickets: map<int, Ticket>, p: int) {
    row.paidBy == Some(Gateway) || row.paidBy == Some(Partial) ==>
      && row.trackingCode.Some? && row.trackingCode.value in tickets
      && tickets[row.trackingCode.value].payment == p
      && tickets[row.trackingCode.value].amount == o.total - RowShare(row)
      && (row.status.Refunded? && row.refundType == Some(Full) ==> tickets[row.trackingCode.value].reversed)
  }

  ghost predicate PaymentGood(s: State, p: int)
    requires p in s.payments
  {
    && p in s.orders
    && RowGood(s.orders[p], s.payments[p])
    && MovesGood(s.orders[p], s.payments[p], s.ledger, p)
    && TicketGood(s.orders[p], s.payments[p], s.tickets, p)
    && Net(s.ledger, p) == Expected(s.payments[p])
  }

  ghost predicate UniqueKeys(ledger: seq<Move>) {
    forall i, j :: 0 <= i < j < |ledger| ==> !(ledger[i].customer == ledger[j].customer && ledger[i].key == ledger[j].key)
  }

  ghost predicate Good(s: State) {
    && UniqueKeys(s.ledger)
    && (forall p :: p in s.payments ==> PaymentGood(s, p))
    && (forall m :: m in s.ledger && m.key.PaymentKey? ==> m.key.payment in s.payments)
  }

  // ---------------------------------------------------------------- one ledger entry

  lemma NetOfOne(ledger: seq<Move>, m: Move, p: int)
    ensures Net(ledger + [m], p) == Net(ledger, p) - if IsFor(m, p) then Gain(m) else 0
  {
    assert (ledger + [m])[..|ledger|] == ledger;
  }

  lemma {:induction false} NetOfNone(ledger: seq<Move>, p: int)
    requires forall m :: m in ledger ==> !IsFor(m, p)
    ensures Net(ledger, p) == 0
  {
    if |ledger| > 0 {
      NetOfNone(ledger[..|ledger| - 1], p);
    }
  }

  /** A wallet operation is refused, replayed, or adds exactly one entry whose key is new. */
  lemma MoveOnce(s: State, m: Move, r: Result<State, Error>)
    requires r == RunIdempotently(s, m)
    ensures r.Ok? ==>
              && r.value.orders == s.orders && r.value.payments == s.payments && r.value.tickets == s.tickets
              && ((r.value == s && m in s.ledger) ||
                  (r.value.ledger == s.ledger + [m] && Find(s.ledger, m.customer, m.key).None?))
    ensures r.Ok? && UniqueKeys(s.ledger) ==> UniqueKeys(r.value.ledger)
  {
  }

  /** A payment whose row stays and none of whose moves is added stays good. */
  lemma OthersStayGood(s: State, s': State, q: int, m: Move)
    requires q in s.payments && PaymentGood(s, q)
    requires q in s'.payments && q in s'.orders && s'.payments[q] == s.payments[q] && s'.orders[q] == s.orders[q]
    requires s'.tickets == s.tickets
    requires s'.ledger == s.ledger || (s'.ledger == s.ledger + [m] && !IsFor(m, q))
    ensures PaymentGood(s', q)
  {
    NetOfOne(s.ledger, m, q);
  }

  /** One payment's row changed and at most one move for it was added: what is left to show for `Good`. */
  lemma GoodAfterOne(s: State, s': State, p: int, m: Move)
    requires Good(s) && p in s.payments
    requires s'.orders == s.orders && s'.tickets == s.tickets
    requires p in s'.payments && s'.payments == s.payments[p := s'.payments[p]]
    requires s'.ledger == s.ledger || (s'.ledger == s.ledger + [m] && IsFor(m, p) && UniqueKeys(s'.ledger))
    requires PaymentGood(s', p)
    ensures Good(s')
  {
    forall q | q in s'.payments
      ensures PaymentGood(s', q)
    {
      if q != p {
        OthersStayGood(s, s', q, m);
      }
    }
  }

  // ---------------------------------------------------------------- settle

  /** The settle key of an attempt has no entry yet. */
  ghost predicate UnusedTime(s: State, p: int, at: int) {
    forall m :: m in s.ledger && IsFor(m, p) ==> m.key.at != at
  }

  lemma SettledRowIsGood(s: State, p: int, a: Allocation, at: int, gatewayKey: string, code: int)
    requires p in s.payments && p in s.orders && RowGood(s.orders[p], s.payments[p]) && s.payments[p].status.Pending?
    requires Prepared(s, p, a, code)
    ensures var row := Settled(s.payments[p], a, s.orders[p].customer, at, gatewayKey, code);
            RowGood(s.orders[p], row) && TicketGood(s.orders[p], row, s.tickets, p) && Expected(row) == WalletShare(a)
  {
  }

  /** A withdrawal pays its amount, unless it is the replay of one made before. */
  lemma WithdrawalPays(s: State, m: Move, p: int, r: Result<State, Error>)
    requires r == RunIdempotently(s, m) && r.Ok? && IsFor(m, p) && m.operation.Withdraw?
    ensures 0 < m.amount
    ensures Net(r.value.ledger, p) == Net(s.ledger, p) + if Find(s.ledger, m.customer, m.key) == Some(m) then 0 else m.amount
  {
    NetOfOne(s.ledger, m, p);
  }

  lemma SettleKeepsGood(s: State, p: int, a: Allocation, at: int, gatewayKey: string, code: int, r: Result<State, Error>)
    requires Good(s) && p in s.payments && Prepared(s, p, a, code) && UnusedTime(s, p, at)
    requires r == SettleTx(s, p, a, at, gatewayKey, code) && r.Ok?
    ensures Good(r.value)
  {
    SettledRowIsGood(s, p, a, at, gatewayKey, code);
    var m := Move(s.orders[p].customer, PaymentKey(p, at, Withdraw), Withdraw, WalletShare(a));
    NetOfOne(s.ledger, m, p);
    if !a.GatewayOnly? {
      MoveOnce(s, m, RunIdempotently(s, m));
    }
    GoodAfterOne(s, r.value, p, m);
  }

  // ---------------------------------------------------------------- refunds and status updates

  /** The row a status update leaves: it passes every CHECK, and what it expects is what the refund leaves. */
  predicate UpdateFits(row: Row, amount: Option<int>, update: Update) {
    var share := RowShare(row);
    match update
    case ToPaid => row.status.Processing? && amount.None?
    case ToPending => row.status.Processing? && amount == SplitShare(row)
    case ToFailure => row.status.Processing? && amount == SplitShare(row)
    case ToExpired => (row.status.Pending? || row.status.Processing?) && amount == SplitShare(row)
    case ToRefunded(Full, destination, _) =>
      row.status.Paid? && amount == if row.paidBy == Some(Wallet) then Some(share) else SplitShare(row)
    case ToRefunded(Part, destination, n) => row.status.Paid? && amount == Some(n) && destination == Wallet && 0 < n
  }

  lemma UpdatedRowIsGood(o: Order, row: Row, amount: Option<int>, update: Update, now: int)
    requires RowGood(o, row) && UpdateFits(row, amount, update)
    ensures RowGood(o, Updated(row, update, now))
    ensures Expected(Updated(row, update, now)) == Expected(row) - Value(amount)
    ensures amount.Some? ==> row.status.Processing? || row.status.Paid?
    ensures row.status.Processing? || row.status.Paid? ==> amount.Some? ==> row.paidBy.Some?
    ensures Updated(row, update, now).status.Processing? || Updated(row, update, now).status.Paid? ==> amount.None?
  {
  }

  lemma RefundAndUpdateKeepsGood(s: State, p: int, amount: Option<int>, update: Update, now: int, r: Result<State, Error>)
    requires Good(s) && p in s.payments && UpdateFits(s.payments[p], amount, update)
    requires update.ToRefunded? && update.kind.Full? && s.payments[p].paidBy != Some(Wallet) ==> Reversed(s, s.payments[p])
    requires r == RefundAndUpdate(s, p, amount, update, now) && r.Ok?
    ensures Good(r.value)
  {
    var row := s.payments[p];
    var o := s.orders[p];
    UpdatedRowIsGood(o, row, amount, update, now);
    var m := Move(o.customer, PaymentKey(p, Value(row.settleRequestedAt), Deposit), Deposit, Value(amount));
    NetOfOne(s.ledger, m, p);
    if amount.Some? {
      MoveOnce(s, m, RefundToWallet(s, p, amount.value));
    }
    GoodAfterOne(s, r.value, p, m);
  }

  lemma ReverseKeepsGood(s: State, p: int)
    requires Good(s) && p in s.payments
    ensures Good(ReverseTicket(s, p))
  {
    var s' := ReverseTicket(s, p);
    forall q | q in s'.payments
      ensures PaymentGood(s', q)
    {
      assert PaymentGood(s, q);
    }
  }

  // ---------------------------------------------------------------- every step

  datatype Effect =
    | Settles(a: Allocation, at: int, gatewayKey: string, code: int)
    | Updates(amount: Option<int>, update: Update, now: int)
    | Reverses
    | Nothing

  /** What a call does to a row if it goes through. */
  function EffectOf(row: Row, call: Call): Effect {
    match call
    case Settle(a, at, gatewayKey, code) => Settles(a, at, gatewayKey, code)
    case Verify(Verified, now) => Updates(None, ToPaid, now)
    case Verify(StillPending, now) => Nothing
    case Verify(TicketExpired, now) => Updates(SplitShare(row), ToExpired, now)
    case Verify(Failed, now) => Updates(SplitShare(row), ToFailure, now)
    case Cancel(now) => Updates(SplitShare(row), ToPending, now)
    case Expire(now) => Updates(SplitShare(row), ToExpired, now)
    case Reverse => Reverses
    case RefundAll(now) =>
      var share := if row.paidBy == Some(Wallet) then Some(Value(row.amount)) else SplitShare(row);
      Updates(share, ToRefunded(Full, if row.paidBy.Some? then row.paidBy.value else Wallet, 0), now)
    case RefundPart(refund, now) => Updates(Some(refund), ToRefunded(Part, Wallet, refund), now)
  }

  /** The call's transaction goes through. */
  predicate Commits(s: State, p: int, call: Call)
    requires p in s.payments && p in s.orders
  {
    match call
    case Settle(a, at, gatewayKey, code) => Prepared(s, p, a, code) && SettleTx(s, p, a, at, gatewayKey, code).Ok?
    case Verify(answer, now) => VerifyTx(s, p, answer, now).Ok?
    case Cancel(now) => CancelTx(s, p, now).Ok?
    case Expire(now) => ExpireTx(s, p, now).Ok?
    case Reverse => false
    case RefundAll(now) => RefundAllTx(s, p, now).Ok?
    case RefundPart(refund, now) => RefundPartTx(s, p, refund, now).Ok?
  }

  /** Every call is a settle, a refund with a status update that fits the row, a reversal, or nothing. */
  lemma CallHasEffect(s: State, p: int, call: Call)
    requires p in s.payments && p in s.orders
    ensures match EffectOf(s.payments[p], call)
            case Settles(a, at, gatewayKey, code) =>
              ApplyCall(s, p, call) == if Commits(s, p, call) then SettleTx(s, p, a, at, gatewayKey, code).value else s
            case Updates(amount, update, now) =>
              var r := RefundAndUpdate(s, p, amount, update, now);
              if Commits(s, p, call) then
                && r.Ok? && ApplyCall(s, p, call) == r.value && UpdateFits(s.payments[p], amount, update)
                && (update.ToRefunded? && update.kind.Full? && s.payments[p].paidBy != Some(Wallet) ==>
                      Reversed(s, s.payments[p]))
              else ApplyCall(s, p, call) == s
            case Reverses => ApplyCall(s, p, call) == ReverseTicket(s, p)
            case Nothing => ApplyCall(s, p, call) == s
  {
  }

  /** A settle's time is new for its payment. */
  ghost predicate NewTime(s: State, step: Step) {
    step.On? && step.call.Settle? ==> UnusedTime(s, step.p, step.call.at)
  }

  lemma CallKeepsGood(s: State, p: int, call: Call)
    requires Good(s) && p in s.payments && NewTime(s, On(p, call))
    ensures Good(ApplyCall(s, p, call))
  {
    CallHasEffect(s, p, call);
    match EffectOf(s.payments[p], call)
    case Settles(a, at, gatewayKey, code) =>
      if Commits(s, p, call) {
        SettleKeepsGood(s, p, a, at, gatewayKey, code, SettleTx(s, p, a, at, gatewayKey, code));
      }
    case Updates(amount, update, now) =>
      if Commits(s, p, call) {
        RefundAndUpdateKeepsGood(s, p, amount, update, now, RefundAndUpdate(s, p, amount, update, now));
      }
    case Reverses => ReverseKeepsGood(s, p);
    case Nothing =>
  }

  lemma PlaceKeepsGood(s: State, p: int, order: Order)
    requires Good(s)
    ensures Good(Apply(s, Place(p, order)))
  {
    var s' := Apply(s, Place(p, order));
    if s' != s {
      NetOfNone(s.ledger, p);
      forall q | q in s.payments
        ensures PaymentGood(s', q)
      {
        assert PaymentGood(s, q);
      }
    }
  }

  lemma ElsewhereKeepsGood(s: State, step: Step)
    requires Good(s) && (step.MoveElsewhere? || step.Open?)
    ensures Good(Apply(s, step))
  {
    var s' := Apply(s, step);
    if step.MoveElsewhere? {
      var m := Move(step.customer, OtherKey(step.text), step.operation, step.amount);
      MoveOnce(s, m, RunIdempotently(s, m));
      forall q | q in s'.payments
        ensures PaymentGood(s', q)
      {
        OthersStayGood(s, s', q, m);
      }
    } else {
      forall q | q in s'.payments
        ensures PaymentGood(s', q)
      {
        assert PaymentGood(s, q);
      }
    }
  }

  lemma ApplyKeepsGood(s: State, step: Step)
    requires Good(s) && NewTime(s, step)
    ensures Good(Apply(s, step))
  {
    match step
    case Place(p, order) => PlaceKeepsGood(s, p, order);
    case On(p, call) =>
      if p in s.payments {
        CallKeepsGood(s, p, call);
      }
    case _ => ElsewhereKeepsGood(s, step);
  }

  // ---------------------------------------------------------------- runs

  ghost predicate Initial(s: State) {
    s.payments == map[] && UniqueKeys(s.ledger) && forall m :: m in s.ledger ==> !m.key.PaymentKey?
  }

  predicate IsSettleAt(step: Step, p: int, at: int) {
    step.On? && step.p == p && step.call.Settle? && step.call.at == at
  }

  /** The clock moves on between two attempts to settle the same payment. */
  ghost predicate SettleTimesIncrease(steps: seq<Step>) {
    forall i, j :: 0 <= i < j < |steps| && IsSettle(steps[i]) && IsSettle(steps[j]) && steps[i].p == steps[j].p ==>
                     steps[i].call.at < steps[j].call.at
  }

  predicate IsSettle(step: Step) {
    step.On? && step.call.Settle?
  }

  ghost predicate AttemptedAt(steps: seq<Step>, p: int, at: int) {
    exists i :: 0 <= i < |steps| && IsSettleAt(steps[i], p, at)
  }

  /** Wallet moves and rows carry the times of settle attempts made so far. */
  ghost predicate Timed(s: State, steps: seq<Step>) {
    && (forall m :: m in s.ledger && m.key.PaymentKey? ==> AttemptedAt(steps, m.key.payment, m.key.at))
    && (forall p :: p in s.payments && s.payments[p].settleRequestedAt.Some? ==>
                      AttemptedAt(steps, p, s.payments[p].settleRequestedAt.value))
  }

  lemma AttemptsStay(steps: seq<Step>, step: Step, p: int, at: int)
    ensures AttemptedAt(steps, p, at) || IsSettleAt(step, p, at) ==> AttemptedAt(steps + [step], p, at)
  {
    if i :| 0 <= i < |steps| && IsSettleAt(steps[i], p, at) {
      assert IsSettleAt((steps + [step])[i], p, at);
    } else if IsSettleAt(step, p, at) {
      assert IsSettleAt((steps + [step])[|steps|], p, at);
    }
  }

  /** What a step asks of the wallet: nothing, or one keyed move that succeeds. */
  ghost predicate MovesBy(s: State, s': State, m: Option<Move>) {
    match m
    case None => s'.ledger == s.ledger && s'.balances == s.balances
    case Some(move) =>
      var r := RunIdempotently(s, move);
      r.Ok? && s'.ledger == r.value.ledger && s'.balances == r.value.balances
  }

  /** A move carries the time of its step or of the row's attempt. */
  predicate TimeFrom(s: State, step: Step, m: Option<Move>) {
    m.Some? && m.value.key.PaymentKey? ==>
      var p, at := m.value.key.payment, m.value.key.at;
      IsSettleAt(step, p, at) || (p in s.payments && s.payments[p].settleRequestedAt == Some(at))
  }

  /** Rows keep the times they have, or take the step's. */
  ghost predicate RowTimesFrom(s: State, s': State, step: Step) {
    forall p :: p in s'.payments && s'.payments[p].settleRequestedAt.Some? ==>
                  || IsSettleAt(step, p, s'.payments[p].settleRequestedAt.value)
                  || (p in s.payments && s.payments[p].settleRequestedAt == s'.payments[p].settleRequestedAt)
  }

  lemma RefundMoves(s: State, p: int, amount: Option<int>, update: Update, now: int, r: Result<State, Error>)
    returns (m: Option<Move>)
    requires p in s.payments && r == RefundAndUpdate(s, p, amount, update, now) && r.Ok?
    ensures MovesBy(s, r.value, m)
    ensures m.Some? ==> m.value.key.PaymentKey? && m.value.key.payment == p
    ensures m.Some? ==> s.payments[p].settleRequestedAt == Some(m.value.key.at)
    ensures r.value.payments == s.payments[p := Updated(s.payments[p], update, now)]
  {
    var row := s.payments[p];
    if amount.None? {
      return None;
    }
    m := Some(Move(row.customerId.value, PaymentKey(p, row.settleRequestedAt.value, Deposit), Deposit, amount.value));
  }

  lemma SettleMoves(s: State, p: int, a: Allocation, at: int, gatewayKey: string, code: int, r: Result<State, Error>)
    returns (m: Option<Move>)
    requires p in s.payments && p in s.orders && r == SettleTx(s, p, a, at, gatewayKey, code) && r.Ok?
    ensures MovesBy(s, r.value, m)
    ensures m.Some? ==> m.value.key.PaymentKey? && m.value.key.payment == p && m.value.key.at == at
    ensures r.value.payments == s.payments[p := Settled(s.payments[p], a, s.orders[p].customer, at, gatewayKey, code)]
  {
    m := if a.GatewayOnly? then None
         else Some(Move(s.orders[p].customer, PaymentKey(p, at, Withdraw), Withdraw, WalletShare(a)));
  }

  lemma CallMoves(s: State, p: int, call: Call, s': State) returns (m: Option<Move>)
    requires p in s.payments && p in s.orders && s' == ApplyCall(s, p, call)
    ensures MovesBy(s, s', m) && TimeFrom(s, On(p, call), m) && RowTimesFrom(s, s', On(p, call))
  {
    m := None;
    CallHasEffect(s, p, call);
    match EffectOf(s.payments[p], call)
    case Settles(a, at, gatewayKey, code) =>
      if Commits(s, p, call) {
        m := SettleMoves(s, p, a, at, gatewayKey, code, SettleTx(s, p, a, at, gatewayKey, code));
      }
    case Updates(amount, update, now) =>
      if Commits(s, p, call) {
        m := RefundMoves(s, p, amount, update, now, RefundAndUpdate(s, p, amount, update, now));
      }
    case _ =>
  }

  lemma ApplyMoves(s: State, step: Step, s': State) returns (m: Option<Move>)
    requires s' == Apply(s, step)
    ensures MovesBy(s, s', m) && TimeFrom(s, step, m) && RowTimesFrom(s, s', step)
  {
    m := None;
    match step
    case MoveElsewhere(customer, operation, amount, text) =>
      var move := Move(customer, OtherKey(text), operation, amount);
      if RunIdempotently(s, move).Ok? {
        m := Some(move);
      }
    case On(p, call) =>
      if p in s.payments && p in s.orders {
        m := CallMoves(s, p, call, s');
      }
    case _ =>
  }

  lemma ApplyKeepsTimed(s: State, steps: seq<Step>, step: Step)
    requires Timed(s, steps)
    ensures Timed(Apply(s, step), steps + [step])
  {
    var m := ApplyMoves(s, step, Apply(s, step));
    forall p, at {
      AttemptsStay(steps, step, p, at);
    }
  }

  /**
   Over every run of settle, verify, cancel, expire and refund on any number of payments, with crashes and
   failed gateway calls anywhere, each payment's wallet money matches its row and the row passes every CHECK.
   */
  lemma {:induction false} MoneyMatchesRows(s: State, steps: seq<Step>)
    requires Initial(s) && SettleTimesIncrease(steps)
    ensures Good(After(s, steps)) && Timed(After(s, steps), steps)
  {
    if |steps| > 0 {
      var before, step := steps[..|steps| - 1], steps[|steps| - 1];
      assert steps == before + [step];
      assert forall i :: 0 <= i < |before| ==> before[i] == steps[i];
      MoneyMatchesRows(s, before);
      var now := After(s, before);
      forall m | IsSettle(step) && m in now.ledger && IsFor(m, step.p)
        ensures m.key.at != step.call.at
      {
        var i :| 0 <= i < |before| && IsSettleAt(before[i], step.p, m.key.at);
        assert steps[i].call.at < steps[|steps| - 1].call.at;
      }
      ApplyKeepsGood(now, step);
      ApplyKeepsTimed(now, before, step);
    }
  }

  /** Each settle attempt is withdrawn at most once and credited back at most once. */
  lemma AtMostOnce(s: State, steps: seq<Step>, p: int, at: int, operation: Operation, i: nat, j: nat)
    requires Initial(s) && SettleTimesIncrease(steps)
    requires i < |After(s, steps).ledger| && After(s, steps).ledger[i].key == PaymentKey(p, at, operation)
    requires j < |After(s, steps).ledger| && After(s, steps).ledger[j].key == PaymentKey(p, at, operation)
    ensures i == j
  {
    MoneyMatchesRows(s, steps);
    var ledger := After(s, steps).ledger;
    assert ledger[i] in ledger && ledger[j] in ledger;
    assert p in After(s, steps).payments && PaymentGood(After(s, steps), p);
    assert IsFor(ledger[i], p) && IsFor(ledger[j], p);
  }

  // ---------------------------------------------------------------- conservation

  function Total(ledger: seq<Move>, customer: int): int {
    if |ledger| == 0 then 0
    else
      var last := ledger[|ledger| - 1];
      Total(ledger[..|ledger| - 1], customer) + if last.customer == customer then Gain(last) else 0
  }

  ghost predicate Solvent(s: State) {
    forall c :: c in s.balances ==> 0 <= s.balances[c]
  }

  lemma MoveConserves(s: State, m: Move, c: int)
    requires Solvent(s) && c in s.balances
    ensures var r := RunIdempotently(s, m);
            r.Ok? ==>
              && Solvent(r.value) && r.value.balances.Keys == s.balances.Keys
              && r.value.balances[c] - Total(r.value.ledger, c) == s.balances[c] - Total(s.ledger, c)
  {
    assert (s.ledger + [m])[..|s.ledger|] == s.ledger;
  }

  lemma ApplyConserves(s: State, step: Step, c: int)
    requires Solvent(s) && c in s.balances
    ensures var s' := Apply(s, step);
            && Solvent(s') && c in s'.balances
            && s'.balances[c] - Total(s'.ledger, c) == s.balances[c] - Total(s.ledger, c)
  {
    var m := ApplyMoves(s, step, Apply(s, step));
    if m.Some? {
      MoveConserves(s, m.value, c);
    }
  }

  /** No step makes or loses money: a wallet's balance changes by what its ledger records, and stays covered. */
  lemma {:induction false} BalancesFollowTheLedger(s: State, steps: seq<Step>, c: int)
    requires Solvent(s) && c in s.balances
    ensures var s' := After(s, steps);
            && Solvent(s') && c in s'.balances
            && s'.balances[c] - s.balances[c] == Total(s'.ledger, c) - Total(s.ledger, c)
  {
    if |steps| > 0 {
      BalancesFollowTheLedger(s, steps[..|steps| - 1], c);
      ApplyConserves(After(s, steps[..|steps| - 1]), steps[|steps| - 1], c);
    }
  }

  // ---------------------------------------------------------------- what a customer gets back

  /** What the gateway holds of a paid or refunded payment. */
  function Held(s: State, row: Row): int {
    if HasTicket(s, row) && !Reversed(s, row) then s.tickets[row.trackingCode.value].amount else 0
  }

  /** A paid payment has collected the order total between wallet and gateway, unless its ticket was reversed. */
  lemma PaidInFull(s: State, p: int)
    requires Good(s) && p in s.payments && s.payments[p].status.Paid?
    ensures Net(s.ledger, p) + Held(s, s.payments[p]) ==
            if Reversed(s, s.payments[p]) then RowShare(s.payments[p]) else s.orders[p].total
  {
    assert PaymentGood(s, p);
  }

  /** A full refund returns everything, wallet and gateway. */
  lemma FullRefundReturnsAll(s: State, p: int, now: int, r: Result<State, Error>)
    requires Good(s) && p in s.payments && r == RefundAllTx(s, p, now) && r.Ok?
    ensures p in r.value.payments && Net(r.value.ledger, p) + Held(r.value, r.value.payments[p]) == 0
  {
    CallKeepsGood(s, p, RefundAll(now));
    assert PaymentGood(r.value, p);
  }

  /**
   A partial refund leaves the shop with no less than zero exactly when the gateway's ticket was not already
   reversed, by a full refund that stopped before its transaction, or the refund is within the wallet's share.
   */
  lemma PartialRefundOverpaysIff(s: State, p: int, refund: int, now: int, r: Result<State, Error>)
    requires Good(s) && p in s.payments && r == RefundPartTx(s, p, refund, now) && r.Ok?
    ensures p in r.value.payments
    ensures 0 <= Net(r.value.ledger, p) + Held(r.value, r.value.payments[p]) <==>
            !Reversed(s, s.payments[p]) || refund <= RowShare(s.payments[p])
  {
    assert PaymentGood(s, p);
    CallKeepsGood(s, p, RefundPart(refund, now));
    assert PaymentGood(r.value, p);
  }

  // ---------------------------------------------------------------- when the clock stands still

  /** Payment 1 of customer 7, an order of 100 split 40 to 60, at one moment. */
  function Snapshot(row: Row, ledger: seq<Move>, balance: int, tickets: map<int, Ticket>): State {
    State(map[1 := Order(7, 100)], map[1 := row], ledger, map[7 := balance], tickets)
  }

  const PAID_40 := Move(7, PaymentKey(1, 5, Withdraw), Withdraw, 40)
  const BACK_40 := Move(7, PaymentKey(1, 5, Deposit), Deposit, 40)

  function SettleAt5(code: int): Step {
    On(1, Settle(Both(40, 60), 5, "azkivam", code))
  }

  function RowAt5(row: Row, code: int): Row {
    Settled(row, Both(40, 60), 7, 5, "azkivam", code)
  }

  const TICKET_60 := Ticket(1, 60, false)

  lemma FirstSettle()
    ensures Apply(Snapshot(NEW_PAYMENT, [], 100, map[10 := TICKET_60]), SettleAt5(10)) ==
            Snapshot(RowAt5(NEW_PAYMENT, 10), [PAID_40], 60, map[10 := TICKET_60])
  {
  }

  lemma FirstCancel(row: Row)
    requires row == RowAt5(NEW_PAYMENT, 10)
    ensures Apply(Snapshot(row, [PAID_40], 60, map[10 := TICKET_60]), On(1, Cancel(5))) ==
            Snapshot(Updated(row, ToPending, 5), [PAID_40, BACK_40], 100, map[10 := TICKET_60])
  {
    assert [PAID_40] + [BACK_40] == [PAID_40, BACK_40];
  }

  lemma SecondSettle(row: Row)
    requires row.status.Pending?
    ensures Apply(Snapshot(row, [PAID_40, BACK_40], 100, map[10 := TICKET_60, 11 := TICKET_60]), SettleAt5(11)) ==
            Snapshot(RowAt5(row, 11), [PAID_40, BACK_40], 100, map[10 := TICKET_60, 11 := TICKET_60])
  {
    assert PAID_40 in [PAID_40, BACK_40];
    var found := Find([PAID_40, BACK_40], 7, PAID_40.key);
    assert found == Some(PAID_40);
  }

  lemma AfterOneMore(s: State, steps: seq<Step>, step: Step)
    ensures After(s, steps + [step]) == Apply(After(s, steps), step)
  {
    assert (steps + [step])[..|steps|] == steps;
  }

  lemma OneMore(s: State, steps: seq<Step>, step: Step) returns (more: seq<Step>)
    ensures more == steps + [step] && After(s, more) == Apply(After(s, steps), step)
  {
    more := steps + [step];
    AfterOneMore(s, steps, step);
  }

  lemma Opens(row: Row, ledger: seq<Move>, balance: int, tickets: map<int, Ticket>, code: int, share: int)
    requires code !in tickets
    ensures Apply(Snapshot(row, ledger, balance, tickets), Open(1, code, share)) ==
            Snapshot(row, ledger, balance, tickets[code := Ticket(1, share, false)])
  {
  }

  /** No payments, no tickets, and 100 in the wallet of customer 7. */
  const OPENING := State(map[], map[], [], map[7 := 100], map[])

  lemma PlaceAndOpen(code: int, share: int) returns (steps: seq<Step>)
    ensures After(OPENING, steps) == Snapshot(NEW_PAYMENT, [], 100, map[code := Ticket(1, share, false)])
  {
    steps := OneMore(OPENING, [], Place(1, Order(7, 100)));
    steps := OneMore(OPENING, steps, Open(1, code, share));
  }

  lemma SettledAndCancelled() returns (steps: seq<Step>)
    ensures After(OPENING, steps) ==
            Snapshot(Updated(RowAt5(NEW_PAYMENT, 10), ToPending, 5), [PAID_40, BACK_40], 100, map[10 := TICKET_60])
  {
    steps := PlaceAndOpen(10, 60);
    steps := OneMore(OPENING, steps, SettleAt5(10));
    FirstSettle();
    steps := OneMore(OPENING, steps, On(1, Cancel(5)));
    FirstCancel(RowAt5(NEW_PAYMENT, 10));
  }

  lemma ThereAndBackIsNothing()
    ensures Net([PAID_40, BACK_40], 1) == 0
  {
    NetOfOne([], PAID_40, 1);
    NetOfOne([PAID_40], BACK_40, 1);
    assert [PAID_40] + [BACK_40] == [PAID_40, BACK_40] && [] + [PAID_40] == [PAID_40];
  }

  /**
   Settled, cancelled and settled again within one millisecond: the second withdrawal is taken for a replay
   of the first, so the payment is being processed with a wallet share that nobody paid.
   */
  lemma SameMillisecondSettlesForFree() returns (s: State, steps: seq<Step>)
    ensures Initial(s) && s.tickets == map[]
    ensures 1 in After(s, steps).payments
    ensures Net(After(s, steps).ledger, 1) == 0
    ensures Expected(After(s, steps).payments[1]) == 40
  {
    s := OPENING;
    var row := Updated(RowAt5(NEW_PAYMENT, 10), ToPending, 5);
    steps := SettledAndCancelled();
    steps := OneMore(s, steps, Open(1, 11, 60));
    Opens(row, [PAID_40, BACK_40], 100, map[10 := TICKET_60], 11, 60);
    steps := OneMore(s, steps, SettleAt5(11));
    SecondSettle(row);
    ThereAndBackIsNothing();
  }

  // ---------------------------------------------------------------- a refund that stops half-way

  const ALL_BY_GATEWAY := GatewayOnly(100)
  const REFUND_50 := Move(7, PaymentKey(1, 5, Deposit), Deposit, 50)

  function TicketOf100(reversed: bool): map<int, Ticket> {
    map[10 := Ticket(1, 100, reversed)]
  }

  lemma SettledAndPaid(processing: Row, paid: Row)
    requires processing == Settled(NEW_PAYMENT, ALL_BY_GATEWAY, 7, 5, "g", 10) && paid == Updated(processing, ToPaid, 6)
    ensures Apply(Snapshot(NEW_PAYMENT, [], 100, TicketOf100(false)), On(1, Settle(ALL_BY_GATEWAY, 5, "g", 10))) ==
            Snapshot(processing, [], 100, TicketOf100(false))
    ensures Apply(Snapshot(processing, [], 100, TicketOf100(false)), On(1, Verify(Verified, 6))) ==
            Snapshot(paid, [], 100, TicketOf100(false))
  {
  }

  lemma ReversedAndRefunded(paid: Row)
    requires paid == Updated(Settled(NEW_PAYMENT, ALL_BY_GATEWAY, 7, 5, "g", 10), ToPaid, 6)
    ensures Apply(Snapshot(paid, [], 100, TicketOf100(false)), On(1, Reverse)) == Snapshot(paid, [], 100, TicketOf100(true))
    ensures Apply(Snapshot(paid, [], 100, TicketOf100(true)), On(1, RefundPart(50, 7))) ==
            Snapshot(Updated(paid, ToRefunded(Part, Wallet, 50), 7), [REFUND_50], 150, TicketOf100(true))
  {
    assert [] + [REFUND_50] == [REFUND_50];
  }

  /**
   Paid by gateway, a full refund that stops once the ticket is reversed, then a partial refund of 50: the customer has
   the whole 100 back from the gateway and 50 more in the wallet.
   */
  lemma HalfDoneRefundOverpays() returns (steps: seq<Step>)
    ensures Initial(OPENING) && SettleTimesIncrease(steps)
    ensures var s := After(OPENING, steps);
            1 in s.payments && Net(s.ledger, 1) + Held(s, s.payments[1]) == -50
  {
    var processing := Settled(NEW_PAYMENT, ALL_BY_GATEWAY, 7, 5, "g", 10);
    var paid := Updated(processing, ToPaid, 6);
    SettledAndPaid(processing, paid);
    ReversedAndRefunded(paid);
    steps := OneMore(OPENING, [], Place(1, Order(7, 100)));
    steps := OneMore(OPENING, steps, Open(1, 10, 100));
    steps := OneMore(OPENING, steps, On(1, Settle(ALL_BY_GATEWAY, 5, "g", 10)));
    steps := OneMore(OPENING, steps, On(1, Verify(Verified, 6)));
    steps := OneMore(OPENING, steps, On(1, Reverse));
    steps := OneMore(OPENING, steps, On(1, RefundPart(50, 7)));
    NetOfOne([], REFUND_50, 1);
    assert [] + [REFUND_50] == [REFUND_50];
  }

  // ---------------------------------------------------------------- an expiry that read too early

  /**
   An expiry that read the payment as pending expires whatever it has become. That is right exactly when the row does not
   say by then that the wallet has paid, so it relies on the lock that keeps a settle out.
   */
  lemma LateExpireIsRightIff(s: State, p: int, seen: Row, now: int, r: Result<State, Error>)
    requires Good(s) && p in s.payments && RowGood(s.orders[p], seen)
    requires r == LateExpireTx(s, p, seen, now) && r.Ok?
    ensures p in r.value.payments && RowGood(s.orders[p], r.value.payments[p])
    ensures Net(r.value.ledger, p) == Expected(r.value.payments[p]) <==> Expected(s.payments[p]) == 0
  {
    assert PaymentGood(s, p);
    assert RowGood(s.orders[p], seen) && seen.status.Pending? ==> SplitShare(seen).None?;
  }

  const ALL_100 := Move(7, PaymentKey(1, 5, Withdraw), Withdraw, 100)

  lemma PaidByWallet(s: State)
    requires s == Snapshot(NEW_PAYMENT, [], 100, map[])
    ensures Apply(OPENING, Place(1, Order(7, 100))) == s
    ensures Apply(s, On(1, Settle(WalletOnly(100), 5, "", 0))) ==
            Snapshot(Settled(NEW_PAYMENT, WalletOnly(100), 7, 5, "", 0), [ALL_100], 0, map[])
  {
    assert [] + [ALL_100] == [ALL_100];
  }

  /** Read as pending, paid by wallet, then expired: the customer has paid 100 for an expired payment. */
  lemma LateExpireKeepsTheMoney()
    ensures var s := Apply(Apply(OPENING, Place(1, Order(7, 100))), On(1, Settle(WalletOnly(100), 5, "", 0)));
            && 1 in s.payments && Net(s.ledger, 1) == 100
            && var r := LateExpireTx(s, 1, NEW_PAYMENT, 6);
               r.Ok? && r.value.payments[1].status.Expired? && r.value.ledger == s.ledger && r.value.balances == map[7 := 0]
  {
    PaidByWallet(Snapshot(NEW_PAYMENT, [], 100, map[]));
    NetOfOne([], ALL_100, 1);
    assert [] + [ALL_100] == [ALL_100];
  }
}

/**
 Payments: rows, the wallet ledger and gateway tickets, and the steps that change them.

 A service call is one or two steps: what the gateway is asked to do, then a transaction. A crash
 or an error between them is a run that has the first step and not the second; a transaction that
 throws changes nothing. Times are milliseconds.
 */
module Payment {
  import opened Common

  const MAX_SAFE_INTEGER := 9007199254740991

  datatype Status = Pending | Processing | Paid | Failure | Expired | Refunded

  datatype Method = Wallet | Gateway | Partial

  datatype RefundKind = Full | Part

  /** `paidBy` is the method column. */
  datatype Row = Row(
    customerId: Option<int>,
    status: Status,
    paidBy: Option<Method>,
    amount: Option<int>,
    walletAmount: Option<int>,
    gatewayAmount: Option<int>,
    gatewayKey: Option<string>,
    trackingCode: Option<int>,
    settleRequestedAt: Option<int>,
    paidAt: Option<int>,
    refundedAt: Option<int>,
    refundType: Option<RefundKind>,
    refundDestination: Option<Method>,
    refundedAmount: Option<int>)

  /** What the order contributes: who pays, and how much (its CHECKs keep the total from being negative). */
  datatype Order = Order(customer: int, total: nat)

  datatype Operation = Withdraw | Deposit

  /** An idempotency key: one of ours, or that of some other wallet user. */
  datatype Key =
    | PaymentKey(payment: int, at: int, operation: Operation)
    | OtherKey(text: string)

  datatype Move = Move(customer: int, key: Key, operation: Operation, amount: int)

  datatype Ticket = Ticket(payment: int, amount: int, reversed: bool)

  datatype State = State(
    orders: map<int, Order>,
    payments: map<int, Row>,
    ledger: seq<Move>,
    balances: map<int, int>,
    tickets: map<int, Ticket>)

  datatype Error =
    | NotFound
    | WrongStatus
    | WrongMethod
    | BadAmount
    | Insufficient
    | CoversAll
    | KeyReused
    | GatewayFailed
    | NoSettledCustomer
    | SideEffectFailed

  // ---------------------------------------------------------------- the CHECK constraints

  predicate AtLeastZero(x: Option<int>) {
    x.Some? ==> 0 <= x.value
  }

  predicate AboveZero(x: Option<int>) {
    x.Some? && 0 < x.value
  }

  predicate AmountsNonNegative(r: Row) {
    AtLeastZero(r.amount) && AtLeastZero(r.walletAmount) && AtLeastZero(r.gatewayAmount) && AtLeastZero(r.refundedAmount)
  }

  predicate MethodAllocation(r: Row) {
    match r.paidBy
    case None =>
      r.amount.None? && r.walletAmount.None? && r.gatewayAmount.None? && r.gatewayKey.None? && r.trackingCode.None?
    case Some(Wallet) =>
      r.amount.Some? && r.walletAmount.None? && r.gatewayAmount.None? && r.gatewayKey.None? && r.trackingCode.None?
    case Some(Gateway) =>
      r.amount.Some? && r.walletAmount.None? && r.gatewayAmount.None? && r.gatewayKey.Some? && r.trackingCode.Some?
    case Some(Partial) =>
      && r.amount.None? && AboveZero(r.walletAmount) && AboveZero(r.gatewayAmount)
      && r.gatewayKey.Some? && r.trackingCode.Some?
  }

  predicate StatusMethod(r: Row) {
    match r.status
    case Pending => r.paidBy.None?
    case Expired => true
    case _ => r.paidBy.Some?
  }

  predicate SettleTimestamp(r: Row) {
    r.paidBy.None? <==> r.settleRequestedAt.None?
  }

  predicate RefundFields(r: Row) {
    if r.status.Refunded? then
      && r.refundedAt.Some? && r.refundType.Some? && r.refundDestination.Some?
      && (r.refundType.value.Full? ==> r.refundedAmount.None?)
      && (r.refundType.value.Part? ==> r.refundDestination == Some(Wallet) && r.refundedAmount.Some?)
    else
      r.refundedAt.None? && r.refundType.None? && r.refundDestination.None? && r.refundedAmount.None?
  }

  predicate PaidTimestamp(r: Row) {
    r.status.Paid? <==> r.paidAt.Some?
  }

  predicate Checks(r: Row) {
    && AmountsNonNegative(r) && MethodAllocation(r) && StatusMethod(r)
    && SettleTimestamp(r) && RefundFields(r) && PaidTimestamp(r)
  }

  // ---------------------------------------------------------------- wallet

  /** The latest move of a wallet with this key. */
  function Find(ledger: seq<Move>, customer: int, key: Key): (r: Option<Move>)
    ensures r.None? <==> forall m :: m in ledger ==> !(m.customer == customer && m.key == key)
    ensures r.Some? ==> r.value in ledger && r.value.customer == customer && r.value.key == key
  {
    if |ledger| == 0 then None
    else
      var last := ledger[|ledger| - 1];
      assert ledger == ledger[..|ledger| - 1] + [last];
      if last.customer == customer && last.key == key then Some(last)
      else Find(ledger[..|ledger| - 1], customer, key)
  }

  /** Withdraw or deposit once per key: the same request again changes nothing, a different one is refused. */
  function RunIdempotently(s: State, m: Move): Result<State, Error> {
    if m.amount <= 0 || MAX_SAFE_INTEGER < m.amount then Err(BadAmount)
    else if m.customer !in s.balances then Err(NotFound)
    else
      match Find(s.ledger, m.customer, m.key)
      case Some(existing) => if existing == m then Ok(s) else Err(KeyReused)
      case None =>
        if m.operation.Withdraw? && s.balances[m.customer] < m.amount then Err(Insufficient)
        else
          Ok(s.(ledger := s.ledger + [m],
                balances := s.balances[m.customer := s.balances[m.customer] + Gain(m)]))
  }

  /** The wallet exists, the amount is one, and the key is new and paid for, or was used for just this. */
  ghost predicate GoesThrough(ledger: seq<Move>, balances: map<int, int>, m: Move) {
    && 0 < m.amount <= 9007199254740991 && m.customer in balances
    && if exists other :: other in ledger && other.customer == m.customer && other.key == m.key
       then Find(ledger, m.customer, m.key) == Some(m)
       else m.operation == Deposit || m.amount <= balances[m.customer]
  }

  /** A wallet operation succeeds exactly then; a new one is booked, and the balance moves by its amount. */
  lemma RunIdempotentlyIs(s: State, m: Move, r: Result<State, Error>)
    requires r == RunIdempotently(s, m)
    ensures r.Ok? <==> GoesThrough(s.ledger, s.balances, m)
    ensures r.Ok? && (exists other :: other in s.ledger && other.customer == m.customer && other.key == m.key) ==> r.value == s
    ensures r.Ok? && !(exists other :: other in s.ledger && other.customer == m.customer && other.key == m.key) ==>
              r.value == State(s.orders, s.payments, s.ledger + [m],
                               s.balances[m.customer := if m.operation == Deposit then s.balances[m.customer] + m.amount
                                                        else s.balances[m.customer] - m.amount],
                               s.tickets)
  {
    assert Find(s.ledger, m.customer, m.key).None? <==>
           !(exists other :: other in s.ledger && other.customer == m.customer && other.key == m.key);
  }

  function Gain(m: Move): int {
    if m.operation.Deposit? then m.amount else -m.amount
  }

  // ---------------------------------------------------------------- allocation

  datatype Usage = UseAll | UseAmount(amount: int)

  datatype Selection = ByWallet | ByGateway(gatewayKey: string) | Split(gatewayKey: string, usage: Usage)

  datatype Allocation =
    | WalletOnly(amount: int)
    | GatewayOnly(amount: int)
    | Both(walletAmount: int, gatewayAmount: int)

  function WalletShare(a: Allocation): int {
    match a
    case WalletOnly(amount) => amount
    case GatewayOnly(_) => 0
    case Both(walletAmount, _) => walletAmount
  }

  function GatewayShare(a: Allocation): int {
    match a
    case WalletOnly(_) => 0
    case GatewayOnly(amount) => amount
    case Both(_, gatewayAmount) => gatewayAmount
  }

  /** The two shares sum to the order total; a split leaves something for each. */
  predicate Fits(a: Allocation, total: int) {
    && WalletShare(a) + GatewayShare(a) == total
    && (a.Both? ==> 0 < a.walletAmount && 0 < a.gatewayAmount)
  }

  function Allocate(total: int, selection: Selection, available: int): (r: Result<Allocation, Error>)
    ensures r.Ok? ==> Fits(r.value, total)
    ensures r.Ok? ==> WalletShare(r.value) <= available || r.value.GatewayOnly?
    ensures r.Ok? ==>
              match selection
              case ByGateway(_) => r.value == GatewayOnly(total)
              case ByWallet => r.value == WalletOnly(total)
              case Split(_, UseAll) => r.value == Both(available, total - available)
              case Split(_, UseAmount(amount)) => r.value == Both(amount, total - amount)
    ensures r.Ok? <==>
            match selection
            case ByGateway(_) => true
            case ByWallet => total <= available
            case Split(_, UseAll) => 0 < available < total && available <= 9007199254740991
            case Split(_, UseAmount(amount)) => 0 < amount < total && amount <= available && amount <= 9007199254740991
    ensures r.Err? ==>
              r.error == if selection.ByWallet? then Insufficient
                         else
                           var amount := if selection.usage.UseAmount? then selection.usage.amount
                                         else if available < total then available else total;
                           if amount <= 0 || 9007199254740991 < amount then BadAmount
                           else if total <= amount then CoversAll
                           else Insufficient
  {
    match selection
    case ByGateway(_) => Ok(GatewayOnly(total))
    case ByWallet => if available < total then Err(Insufficient) else Ok(WalletOnly(total))
    case Split(_, usage) =>
      var amount := match usage case UseAll => Min(available, total) case UseAmount(n) => n;
      if amount <= 0 || MAX_SAFE_INTEGER < amount then Err(BadAmount)
      else if total <= amount then Err(CoversAll)
      else if available < amount then Err(Insufficient)
      else Ok(Both(amount, total - amount))
  }

  // ---------------------------------------------------------------- row updates

  const NEW_PAYMENT := Row(None, Pending, None, None, None, None, None, None, None, None, None, None, None, None)

  /** The row a pending payment becomes. */
  function Settled(row: Row, a: Allocation, customer: int, at: int, gatewayKey: string, code: int): Row {
    var chosen := row.(customerId := Some(customer), settleRequestedAt := Some(at));
    match a
    case WalletOnly(amount) =>
      chosen.(status := Paid, paidBy := Some(Wallet), amount := Some(amount), walletAmount := None, gatewayAmount := None,
              gatewayKey := None, trackingCode := None, paidAt := Some(at))
    case GatewayOnly(amount) =>
      chosen.(status := Processing, paidBy := Some(Gateway), amount := Some(amount), walletAmount := None,
              gatewayAmount := None, gatewayKey := Some(gatewayKey), trackingCode := Some(code), paidAt := None)
    case Both(walletAmount, gatewayAmount) =>
      chosen.(status := Processing, paidBy := Some(Partial), amount := None, walletAmount := Some(walletAmount),
              gatewayAmount := Some(gatewayAmount), gatewayKey := Some(gatewayKey), trackingCode := Some(code), paidAt := None)
  }

  datatype Update =
    | ToPending
    | ToPaid
    | ToFailure
    | ToExpired
    | ToRefunded(kind: RefundKind, destination: Method, amount: int)

  function Updated(row: Row, update: Update, now: int): Row {
    var cleared := row.(paidAt := None, refundedAt := None, refundType := None, refundDestination := None,
                        refundedAmount := None);
    match update
    case ToPaid => cleared.(status := Paid, paidAt := Some(now))
    case ToRefunded(kind, destination, amount) =>
      cleared.(status := Refunded, refundedAt := Some(now), refundType := Some(kind), refundDestination := Some(destination),
               refundedAmount := if kind.Part? then Some(amount) else None)
    case ToPending =>
      cleared.(status := Pending, paidBy := None, amount := None, walletAmount := None, gatewayAmount := None,
               gatewayKey := None, trackingCode := None, settleRequestedAt := None)
    case ToFailure => cleared.(status := Failure)
    case ToExpired => cleared.(status := Expired)
  }

  /** The columns a settlement writes: a method and its amounts, the attempt's time, and a ticket unless by wallet. */
  lemma SettledIs(row: Row, a: Allocation, customer: int, at: int, gatewayKey: string, code: int)
    ensures var s := Settled(row, a, customer, at, gatewayKey, code);
            && s.customerId == Some(customer) && s.settleRequestedAt == Some(at)
            && s.refundedAt == row.refundedAt && s.refundType == row.refundType
            && s.refundDestination == row.refundDestination && s.refundedAmount == row.refundedAmount
            && match a
               case WalletOnly(amount) =>
                 && s.status == Paid && s.paidAt == Some(at) && s.paidBy == Some(Wallet) && s.amount == Some(amount)
                 && s.walletAmount == None && s.gatewayAmount == None && s.gatewayKey == None && s.trackingCode == None
               case GatewayOnly(amount) =>
                 && s.status == Processing && s.paidAt == None && s.paidBy == Some(Gateway) && s.amount == Some(amount)
                 && s.walletAmount == None && s.gatewayAmount == None
                 && s.gatewayKey == Some(gatewayKey) && s.trackingCode == Some(code)
               case Both(ofWallet, ofGateway) =>
                 && s.status == Processing && s.paidAt == None && s.paidBy == Some(Partial) && s.amount == None
                 && s.walletAmount == Some(ofWallet) && s.gatewayAmount == Some(ofGateway)
                 && s.gatewayKey == Some(gatewayKey) && s.trackingCode == Some(code)
  {
  }

  /** Each status has its own columns; the payer stays, and all but a return to pending keep the method. */
  lemma UpdatedIs(row: Row, update: Update, now: int)
    ensures var u := Updated(row, update, now);
            && u.status == (match update
                            case ToPending => Pending
                            case ToPaid => Paid
                            case ToFailure => Failure
                            case ToExpired => Expired
                            case ToRefunded(_, _, _) => Refunded)
            && u.paidAt == (if update.ToPaid? then Some(now) else None)
            && u.refundedAt == (if update.ToRefunded? then Some(now) else None)
            && u.refundType == (if update.ToRefunded? then Some(update.kind) else None)
            && u.refundDestination == (if update.ToRefunded? then Some(update.destination) else None)
            && u.refundedAmount == (if update.ToRefunded? && update.kind == Part then Some(update.amount) else None)
            && u.customerId == row.customerId
            && (if update.ToPending? then
                  && u.paidBy == None && u.amount == None && u.walletAmount == None && u.gatewayAmount == None
                  && u.gatewayKey == None && u.trackingCode == None && u.settleRequestedAt == None
                else
                  && u.paidBy == row.paidBy && u.amount == row.amount && u.walletAmount == row.walletAmount
                  && u.gatewayAmount == row.gatewayAmount && u.gatewayKey == row.gatewayKey
                  && u.trackingCode == row.trackingCode && u.settleRequestedAt == row.settleRequestedAt)
  {
  }

  // ---------------------------------------------------------------- transactions

  function Value(x: Option<int>): int {
    if x.Some? then x.value else 0
  }

  function PaidTotal(row: Row): int {
    if row.amount.Some? then row.amount.value else Value(row.walletAmount) + Value(row.gatewayAmount)
  }

  /** Takes the wallet share, then moves the row on if it is still pending; otherwise nothing happens. */
  function SettleTx(s: State, p: int, a: Allocation, at: int, gatewayKey: string, code: int): Result<State, Error>
    requires p in s.payments && p in s.orders
  {
    var customer := s.orders[p].customer;
    var taken := if a.GatewayOnly? then Ok(s)
                 else RunIdempotently(s, Move(customer, PaymentKey(p, at, Withdraw), Withdraw, WalletShare(a)));
    if taken.Err? then taken
    else if !s.payments[p].status.Pending? then Err(WrongStatus)
    else
      Ok(taken.value.(payments := s.payments[p := Settled(s.payments[p], a, customer, at, gatewayKey, code)]))
  }

  /** Credits the wallet under the refund key of the row's settle attempt. */
  function RefundToWallet(s: State, p: int, amount: int): Result<State, Error>
    requires p in s.payments
  {
    var row := s.payments[p];
    if row.customerId.None? || row.settleRequestedAt.None? then Err(NoSettledCustomer)
    else
      RunIdempotently(
        s, Move(row.customerId.value, PaymentKey(p, row.settleRequestedAt.value, Deposit), Deposit, amount))
  }

  /** Refunds `amount` to the wallet, if any, and updates the status, both or neither. */
  function RefundAndUpdate(s: State, p: int, amount: Option<int>, update: Update, now: int): Result<State, Error>
    requires p in s.payments
  {
    var refunded := if amount.Some? then RefundToWallet(s, p, amount.value) else Ok(s);
    if refunded.Err? then refunded
    else Ok(refunded.value.(payments := s.payments[p := Updated(s.payments[p], update, now)]))
  }

  /** The wallet part of a split payment. */
  function SplitShare(row: Row): Option<int> {
    if row.paidBy == Some(Partial) then Some(Value(row.walletAmount)) else None
  }

  /** The credit of `amount` goes through under the key of the row's settle attempt. */
  ghost predicate CanCredit(s: State, p: int, row: Row, amount: int) {
    && row.customerId.Some? && row.settleRequestedAt.Some?
    && GoesThrough(s.ledger, s.balances,
                   Move(row.customerId.value, PaymentKey(p, row.settleRequestedAt.value, Deposit), Deposit, amount))
  }

  /** Whoever paid in part by wallet gets that part back. */
  ghost predicate CanReturnShare(s: State, p: int, row: Row) {
    row.paidBy == Some(Partial) ==> CanCredit(s, p, row, if row.walletAmount.Some? then row.walletAmount.value else 0)
  }

  lemma RefundGoesThroughIff(s: State, p: int, amount: Option<int>, update: Update, now: int)
    requires p in s.payments
    ensures RefundAndUpdate(s, p, amount, update, now).Ok? <==>
            (amount.Some? ==> CanCredit(s, p, s.payments[p], amount.value))
  {
    var row := s.payments[p];
    if amount.Some? && row.customerId.Some? && row.settleRequestedAt.Some? {
      var m := Move(row.customerId.value, PaymentKey(p, row.settleRequestedAt.value, Deposit), Deposit, amount.value);
      RunIdempotentlyIs(s, m, RunIdempotently(s, m));
    }
  }

  lemma SettleGoesThroughIff(s: State, p: int, a: Allocation, at: int, gatewayKey: string, code: int)
    requires p in s.payments && p in s.orders && s.payments[p].status.Pending?
    ensures SettleTx(s, p, a, at, gatewayKey, code).Ok? <==> CanWithdraw(s, p, a, at)
    ensures !CanWithdraw(s, p, a, at) ==> SettleTx(s, p, a, at, gatewayKey, code) == Err(WalletError(s, p, a, at))
  {
    var m := Move(s.orders[p].customer, PaymentKey(p, at, Withdraw), Withdraw, WalletShare(a));
    RunIdempotentlyIs(s, m, RunIdempotently(s, m));
  }

  /** The payer's wallet can pay its share under the key of this attempt. */
  ghost predicate CanWithdraw(s: State, p: int, a: Allocation, at: int)
    requires p in s.orders
  {
    match a
    case GatewayOnly(_) => true
    case WalletOnly(amount) =>
      GoesThrough(s.ledger, s.balances, Move(s.orders[p].customer, PaymentKey(p, at, Withdraw), Withdraw, amount))
    case Both(amount, _) =>
      GoesThrough(s.ledger, s.balances, Move(s.orders[p].customer, PaymentKey(p, at, Withdraw), Withdraw, amount))
  }

  /** Why it cannot. */
  ghost function WalletError(s: State, p: int, a: Allocation, at: int): Error
    requires p in s.orders
  {
    var customer, amount := s.orders[p].customer, if a.Both? then a.walletAmount else a.amount;
    if amount <= 0 || 9007199254740991 < amount then BadAmount
    else if customer !in s.balances then NotFound
    else if exists m :: m in s.ledger && m.customer == customer && m.key == PaymentKey(p, at, Withdraw) then KeyReused
    else Insufficient
  }

  datatype Answer = Verified | StillPending | TicketExpired | Failed

  function VerifyTx(s: State, p: int, answer: Answer, now: int): Result<State, Error>
    requires p in s.payments
  {
    var row := s.payments[p];
    if !row.status.Processing? then Err(WrongStatus)
    else if row.paidBy == Some(Wallet) then Err(WrongMethod)
    else
      match answer
      case Verified => RefundAndUpdate(s, p, None, ToPaid, now)
      case StillPending => Ok(s)
      case TicketExpired => RefundAndUpdate(s, p, SplitShare(row), ToExpired, now)
      case Failed => RefundAndUpdate(s, p, SplitShare(row), ToFailure, now)
  }

  function CancelTx(s: State, p: int, now: int): Result<State, Error>
    requires p in s.payments
  {
    var row := s.payments[p];
    if !row.status.Processing? then Err(WrongStatus)
    else if row.paidBy == Some(Wallet) then Err(WrongMethod)
    else RefundAndUpdate(s, p, SplitShare(row), ToPending, now)
  }

  function ExpireTx(s: State, p: int, now: int): Result<State, Error>
    requires p in s.payments
  {
    LateExpireTx(s, p, s.payments[p], now)
  }

  /** Status and method are those of the row as it was read, and the update does not ask for them again. */
  function LateExpireTx(s: State, p: int, seen: Row, now: int): Result<State, Error>
    requires p in s.payments
  {
    if !seen.status.Pending? then Err(WrongStatus) else RefundAndUpdate(s, p, SplitShare(seen), ToExpired, now)
  }

  /** The gateway's share is reversed before the wallet's share is credited. */
  function RefundAllTx(s: State, p: int, now: int): Result<State, Error>
    requires p in s.payments
  {
    var row := s.payments[p];
    if !row.status.Paid? || row.paidBy.None? then Err(WrongStatus)
    else if row.paidBy != Some(Wallet) && !Reversed(s, row) then Err(GatewayFailed)
    else
      var share := if row.paidBy == Some(Wallet) then Some(Value(row.amount)) else SplitShare(row);
      RefundAndUpdate(s, p, share, ToRefunded(Full, row.paidBy.value, 0), now)
  }

  function RefundPartTx(s: State, p: int, amount: int, now: int): Result<State, Error>
    requires p in s.payments
  {
    var row := s.payments[p];
    if !row.status.Paid? then Err(WrongStatus)
    else if amount <= 0 || MAX_SAFE_INTEGER < amount || PaidTotal(row) < amount then Err(BadAmount)
    else RefundAndUpdate(s, p, Some(amount), ToRefunded(Part, Wallet, amount), now)
  }

  // ---------------------------------------------------------------- gateway

  predicate HasTicket(s: State, row: Row) {
    row.trackingCode.Some? && row.trackingCode.value in s.tickets
  }

  predicate Reversed(s: State, row: Row) {
    HasTicket(s, row) && s.tickets[row.trackingCode.value].reversed
  }

  /** A new ticket for the gateway's share; ticket codes are never reused. */
  function OpenTicket(s: State, p: int, code: int, amount: int): State {
    if code in s.tickets then s else s.(tickets := s.tickets[code := Ticket(p, amount, false)])
  }

  /** Reverses the ticket of a paid payment; again is a no-op. */
  function ReverseTicket(s: State, p: int): State
    requires p in s.payments
  {
    var row := s.payments[p];
    if row.status.Paid? && HasTicket(s, row) then
      s.(tickets := s.tickets[row.trackingCode.value := s.tickets[row.trackingCode.value].(reversed := true)])
    else s
  }

  // ---------------------------------------------------------------- runs

  /** The steps on one payment. */
  datatype Call =
    | Settle(a: Allocation, at: int, gatewayKey: string, code: int)
    | Verify(answer: Answer, now: int)
    | Cancel(now: int)
    | Expire(now: int)
    | Reverse
    | RefundAll(now: int)
    | RefundPart(refund: int, now: int)

  datatype Step =
    | Place(p: int, order: Order)
    | MoveElsewhere(customer: int, operation: Operation, amount: int, text: string)
    | Open(p: int, code: int, share: int)
    | On(p: int, call: Call)

  function Committed(s: State, r: Result<State, Error>): State {
    if r.Ok? then r.value else s
  }

  /** The allocation a settle step works with was computed earlier, possibly from a balance that has changed since. */
  predicate Prepared(s: State, p: int, a: Allocation, code: int)
    requires p in s.orders
  {
    && Fits(a, s.orders[p].total)
    && (!a.WalletOnly? ==> code in s.tickets && s.tickets[code] == Ticket(p, GatewayShare(a), false))
  }

  function ApplyCall(s: State, p: int, call: Call): State
    requires p in s.payments && p in s.orders
  {
    match call
    case Settle(a, at, gatewayKey, code) =>
      if Prepared(s, p, a, code) then Committed(s, SettleTx(s, p, a, at, gatewayKey, code)) else s
    case Verify(answer, now) => Committed(s, VerifyTx(s, p, answer, now))
    case Cancel(now) => Committed(s, CancelTx(s, p, now))
    case Expire(now) => Committed(s, ExpireTx(s, p, now))
    case Reverse => ReverseTicket(s, p)
    case RefundAll(now) => Committed(s, RefundAllTx(s, p, now))
    case RefundPart(refund, now) => Committed(s, RefundPartTx(s, p, refund, now))
  }

  function Apply(s: State, step: Step): State {
    match step
    case Place(p, order) =>
      if p in s.payments || p in s.orders then s
      else s.(orders := s.orders[p := order], payments := s.payments[p := NEW_PAYMENT])
    case MoveElsewhere(customer, operation, amount, text) =>
      Committed(s, RunIdempotently(s, Move(customer, OtherKey(text), operation, amount)))
    case Open(p, code, share) => OpenTicket(s, p, code, share)
    case On(p, call) => if p in s.payments && p in s.orders then ApplyCall(s, p, call) else s
  }

  function After(s: State, steps: seq<Step>): State {
    if |steps| == 0 then s else Apply(After(s, steps[..|steps| - 1]), steps[|steps| - 1])
  }
}

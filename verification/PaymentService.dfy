/**
 The payment service over its tables, statement by statement. Every method is shown to take the steps of the
 runs that `PaymentRuns` is about. What a gateway answers and whether fulfilment or delivery goes through
 are parameters.
 */
module PaymentService {
  import opened Common
  import P = Payment
  import opened Payment

  class PaymentService {
    var orders: map<int, Order>
    var payments: map<int, Row>
    var ledger: seq<P.Move>
    var balances: map<int, int>
    var tickets: map<int, Ticket>

    ghost function View(): State
      reads this
    {
      State(orders, payments, ledger, balances, tickets)
    }

    // -------------------------------------------------------------- wallet

    method RunIdempotently(m: P.Move) returns (r: Result<(), Error>)
      modifies this`ledger, this`balances
      ensures var spec := P.RunIdempotently(old(View()), m);
              && View() == Committed(old(View()), spec)
              && (spec.Ok? <==> r.Ok?) && (spec.Err? ==> r.Err? && r.error == spec.error)
    {
      if m.amount <= 0 || MAX_SAFE_INTEGER < m.amount {
        return Err(BadAmount);
      }
      if m.customer !in balances {
        return Err(NotFound);
      }
      var existing := Find(ledger, m.customer, m.key);
      if existing.Some? {
        if existing.value.operation != m.operation || existing.value.amount != m.amount {
          return Err(KeyReused);
        }
        return Ok(());
      }
      var before := ledger;
      ledger := ledger + [m];
      if m.operation.Withdraw? {
        if balances[m.customer] < m.amount {
          ledger := before;
          return Err(Insufficient);
        }
        balances := balances[m.customer := balances[m.customer] - m.amount];
      } else {
        balances := balances[m.customer := balances[m.customer] + m.amount];
      }
      return Ok(());
    }

    method RefundToWallet(p: int, amount: int) returns (r: Result<(), Error>)
      requires p in payments
      modifies this`ledger, this`balances
      ensures var spec := P.RefundToWallet(old(View()), p, amount);
              View() == Committed(old(View()), spec) && (spec.Ok? <==> r.Ok?)
    {
      var row := payments[p];
      if row.customerId.None? || row.settleRequestedAt.None? {
        return Err(NoSettledCustomer);
      }
      r := RunIdempotently(
        P.Move(row.customerId.value, PaymentKey(p, row.settleRequestedAt.value, Deposit), Deposit, amount));
    }

    // -------------------------------------------------------------- repository

    /** The compare-and-set: false when the payment is no longer pending. */
    method SettleRow(p: int, a: Allocation, customer: int, at: int, gatewayKey: string, code: int) returns (settled: bool)
      requires p in payments
      modifies this`payments
      ensures settled == old(payments[p].status.Pending?)
      ensures payments == if settled then old(payments)[p := Settled(old(payments[p]), a, customer, at, gatewayKey, code)]
                          else old(payments)
      ensures forall q :: q in old(payments) && q != p ==> q in payments && payments[q] == old(payments)[q]
      ensures settled ==>
                && !payments[p].status.Pending?
                && payments[p].customerId == Some(customer) && payments[p].settleRequestedAt == Some(at)
                && PaidTotal(payments[p]) == WalletShare(a) + GatewayShare(a)
                && (payments[p].status.Paid? <==> a.WalletOnly?)
                && (payments[p].trackingCode == if a.WalletOnly? then None else Some(code))
    {
      settled := payments[p].status.Pending?;
      if settled {
        payments := payments[p := Settled(payments[p], a, customer, at, gatewayKey, code)];
      }
    }

    method UpdateStatus(p: int, update: Update, now: int)
      requires p in payments
      modifies this`payments
      ensures payments == old(payments)[p := Updated(old(payments[p]), update, now)]
    {
      payments := payments[p := Updated(payments[p], update, now)];
    }

    // -------------------------------------------------------------- transactions

    /** One transaction: wallet withdrawal, row, side effects; an error anywhere rolls all of it back. */
    method SettleInTx(p: int, a: Allocation, at: int, gatewayKey: string, code: int, fulfilled: bool) returns (e: Option<Error>)
      requires p in payments && p in orders
      modifies this
      ensures var spec := P.SettleTx(old(View()), p, a, at, gatewayKey, code);
              && e == (if spec.Err? then Some(spec.error) else if fulfilled then None else Some(SideEffectFailed))
              && View() == if e.None? then spec.value else old(View())
    {
      var ledger0, balances0, payments0 := ledger, balances, payments;
      if !a.GatewayOnly? {
        var taken := RunIdempotently(P.Move(orders[p].customer, PaymentKey(p, at, Withdraw), Withdraw, WalletShare(a)));
        if taken.Err? {
          return Some(taken.error);
        }
      }
      var settled := SettleRow(p, a, orders[p].customer, at, gatewayKey, code);
      if !settled || !fulfilled {
        ledger, balances, payments := ledger0, balances0, payments0;
        return Some(if settled then SideEffectFailed else WrongStatus);
      }
      return None;
    }

    /** One transaction: status, wallet refund, side effects; an error anywhere rolls all of it back. */
    method RefundInTx(p: int, amount: Option<int>, update: Update, now: int, delivered: bool) returns (done: bool)
      requires p in payments
      modifies this
      ensures var spec := P.RefundAndUpdate(old(View()), p, amount, update, now);
              done == (spec.Ok? && delivered) && View() == if done then spec.value else old(View())
      ensures done <==> delivered && (amount.Some? ==> CanCredit(old(View()), p, old(payments)[p], amount.value))
    {
      RefundGoesThroughIff(View(), p, amount, update, now);
      var ledger0, balances0, payments0 := ledger, balances, payments;
      if amount.Some? {
        var refunded := RefundToWallet(p, amount.value);
        if refunded.Err? {
          return false;
        }
      }
      UpdateStatus(p, update, now);
      if !delivered {
        ledger, balances, payments := ledger0, balances0, payments0;
        return false;
      }
      return true;
    }

    // -------------------------------------------------------------- service

    /**
     `available` is what the balance query answered, `ticket` the code of the gateway's ticket, None when creating
     it failed. The ticket comes first, so whatever fails, an unsettled payment costs the wallet nothing.
     */
    method Settle(p: int, selection: Selection, available: int, partialSupported: bool, ticket: Option<int>, at: int,
                  fulfilled: bool)
      returns (r: Result<Status, Error>)
      requires p in payments ==> p in orders
      requires ticket.Some? ==> ticket.value !in tickets
      modifies this
      ensures r.Ok? <==>
                && p in old(payments) && old(payments)[p].status == Pending
                && var allocation := Allocate(old(orders)[p].total, selection, available);
                   && allocation.Ok? && CanWithdraw(old(View()), p, allocation.value, at)
                   && match allocation.value
                      case WalletOnly(_) => fulfilled
                      case GatewayOnly(_) => ticket.Some?
                      case Both(_, _) => ticket.Some? && partialSupported
      ensures r.Ok? ==>
                && p in old(payments) && Allocate(old(orders)[p].total, selection, available).Ok?
                && (var a := Allocate(old(orders)[p].total, selection, available).value;
                    var settle := On(p, P.Settle(a, at, KeyOf(selection), if ticket.Some? then ticket.value else 0));
                    && r.value == (if a.WalletOnly? then Paid else Processing)
                    && (a.WalletOnly? ==> View() == Apply(old(View()), settle))
                    && (!a.WalletOnly? ==> ticket.Some?)
                    && (!a.WalletOnly? ==>
                          View() == Apply(Apply(old(View()), Open(p, ticket.value, GatewayShare(a))), settle)))
      ensures r.Ok? ==> OnlyStatus(old(payments), payments, p, r.value)
      ensures r.Ok? ==> p in payments &&
                        payments[p].gatewayKey == match selection
                                                  case ByWallet => None
                                                  case ByGateway(gatewayKey) => Some(gatewayKey)
                                                  case Split(gatewayKey, _) => Some(gatewayKey)
      ensures r.Err? ==>
                var allocation := Allocate(if p in old(orders) then old(orders)[p].total else 0, selection, available);
                r.error == if p !in old(payments) then NotFound
                           else if old(payments)[p].status != Pending then WrongStatus
                           else if allocation.Err? then allocation.error
                           else if allocation.value.Both? && !partialSupported then WrongMethod
                           else if !allocation.value.WalletOnly? && ticket.None? then GatewayFailed
                           else if CanWithdraw(old(View()), p, allocation.value, at) then SideEffectFailed
                           else WalletError(old(View()), p, allocation.value, at)
      ensures r.Err? ==> orders == old(orders) && payments == old(payments) && ledger == old(ledger) && balances == old(balances)
      ensures r.Err? ==> tickets == old(tickets) ||
                         (ticket.Some? && tickets.Keys == old(tickets).Keys + {ticket.value} &&
                          forall code :: code in old(tickets) ==> tickets[code] == old(tickets)[code])
    {
      if p !in payments {
        return Err(NotFound);
      }
      if !payments[p].status.Pending? {
        return Err(WrongStatus);
      }
      var total := orders[p].total;
      var allocation := Allocate(total, selection, available);
      if allocation.Err? {
        return Err(allocation.error);
      }
      var a := allocation.value;
      SettleGoesThroughIff(View(), p, a, at, KeyOf(selection), if ticket.Some? then ticket.value else 0);
      if a.WalletOnly? {
        var failed := SettleInTx(p, a, at, KeyOf(selection), if ticket.Some? then ticket.value else 0, fulfilled);
        return if failed.None? then Ok(Paid) else Err(failed.value);
      }
      if a.Both? && !partialSupported {
        return Err(WrongMethod);
      }
      if ticket.None? {
        return Err(GatewayFailed);
      }
      tickets := tickets[ticket.value := Ticket(p, GatewayShare(a), false)];
      SettleGoesThroughIff(View(), p, a, at, KeyOf(selection), ticket.value);
      var failed := SettleInTx(p, a, at, KeyOf(selection), ticket.value, true);
      return if failed.None? then Ok(Processing) else Err(failed.value);
    }

    method Verify(p: int, answer: Answer, now: int, delivered: bool) returns (done: bool)
      requires p in payments ==> p in orders
      modifies this
      ensures View() == if done then Apply(old(View()), On(p, P.Verify(answer, now))) else old(View())
      ensures done ==> p in old(payments) && VerifyTx(old(View()), p, answer, now).Ok?
      ensures done ==> OnlyStatus(old(payments), payments, p, match answer
                                                              case Verified => Paid
                                                              case StillPending => Processing
                                                              case TicketExpired => Expired
                                                              case Failed => Failure)
      ensures done <==>
                && p in old(payments) && old(payments)[p].status == Processing && old(payments)[p].paidBy != Some(Wallet)
                && match answer
                   case Verified => delivered
                   case StillPending => true
                   case _ => delivered && CanReturnShare(old(View()), p, old(payments)[p])
    {
      if p !in payments || !payments[p].status.Processing? || payments[p].paidBy == Some(Wallet) {
        return false;
      }
      match answer {
        case Verified => done := RefundInTx(p, None, ToPaid, now, delivered);
        case StillPending => done := true;
        case TicketExpired => done := RefundInTx(p, SplitShare(payments[p]), ToExpired, now, delivered);
        case Failed => done := RefundInTx(p, SplitShare(payments[p]), ToFailure, now, delivered);
      }
    }

    method Cancel(p: int, canceled: bool, now: int, delivered: bool) returns (done: bool)
      requires p in payments ==> p in orders
      modifies this
      ensures View() == if done then Apply(old(View()), On(p, P.Cancel(now))) else old(View())
      ensures done ==> p in old(payments) && CancelTx(old(View()), p, now).Ok? && canceled
      ensures done ==> OnlyStatus(old(payments), payments, p, Pending)
      ensures done <==>
                && p in old(payments) && old(payments)[p].status == Processing && old(payments)[p].paidBy != Some(Wallet)
                && canceled && delivered && CanReturnShare(old(View()), p, old(payments)[p])
    {
      if p !in payments || !payments[p].status.Processing? || payments[p].paidBy == Some(Wallet) || !canceled {
        return false;
      }
      done := RefundInTx(p, SplitShare(payments[p]), ToPending, now, delivered);
    }

    method Expire(p: int, now: int, delivered: bool) returns (done: bool)
      requires p in payments ==> p in orders
      modifies this
      ensures View() == if done then Apply(old(View()), On(p, P.Expire(now))) else old(View())
      ensures done ==> p in old(payments) && ExpireTx(old(View()), p, now).Ok?
      ensures done ==> OnlyStatus(old(payments), payments, p, Expired)
      ensures done <==>
                && p in old(payments) && old(payments)[p].status == Pending
                && delivered && CanReturnShare(old(View()), p, old(payments)[p])
    {
      if p !in payments || !payments[p].status.Pending? {
        return false;
      }
      done := RefundInTx(p, SplitShare(payments[p]), ToExpired, now, delivered);
    }

    /** `reversed` says whether the gateway reversed the ticket; when the transaction then fails, it stays reversed. */
    method RefundAll(p: int, reversed: bool, now: int, committed: bool) returns (done: bool)
      requires p in payments ==> p in orders
      modifies this
      ensures !done ==> View() == old(View()) || View() == Apply(old(View()), On(p, P.Reverse))
      ensures done ==>
                && p in old(payments)
                && var before := if old(payments)[p].paidBy == Some(Wallet) then old(View())
                                 else Apply(old(View()), On(p, P.Reverse));
                   View() == Apply(before, On(p, P.RefundAll(now)))
      ensures done ==>
                && OnlyStatus(old(payments), payments, p, Refunded)
                && payments[p].refundType == Some(Full) && payments[p].refundDestination == old(payments)[p].paidBy
      ensures done <==>
                && p in old(payments) && old(payments)[p].status == Paid && committed
                && match old(payments)[p].paidBy
                   case None => false
                   case Some(Wallet) =>
                     CanCredit(old(View()), p, old(payments)[p],
                               if old(payments)[p].amount.Some? then old(payments)[p].amount.value else 0)
                   case Some(_) =>
                     && reversed && old(payments)[p].trackingCode.Some? && old(payments)[p].trackingCode.value in old(tickets)
                     && CanReturnShare(old(View()), p, old(payments)[p])
    {
      if p !in payments || !payments[p].status.Paid? {
        return false;
      }
      var row := payments[p];
      if row.paidBy != Some(Wallet) {
        if !reversed || row.paidBy.None? || row.trackingCode.None? || row.trackingCode.value !in tickets {
          return false;
        }
        var code := row.trackingCode.value;
        tickets := tickets[code := tickets[code].(reversed := true)];
      }
      var share := if row.paidBy == Some(Wallet) then Some(Value(row.amount)) else SplitShare(row);
      done := RefundInTx(p, share, ToRefunded(Full, row.paidBy.value, 0), now, committed);
    }

    method RefundPart(p: int, refund: int, now: int, committed: bool) returns (done: bool)
      requires p in payments ==> p in orders
      modifies this
      ensures View() == if done then Apply(old(View()), On(p, P.RefundPart(refund, now))) else old(View())
      ensures done ==> p in old(payments) && RefundPartTx(old(View()), p, refund, now).Ok?
      ensures done ==>
                && OnlyStatus(old(payments), payments, p, Refunded) && payments[p].refundType == Some(Part)
                && payments[p].refundDestination == Some(Wallet) && payments[p].refundedAmount == Some(refund)
      ensures done <==>
                && p in old(payments) && old(payments)[p].status == Paid && committed
                && 0 < refund <= 9007199254740991 && refund <= PaidTotal(old(payments)[p])
                && CanCredit(old(View()), p, old(payments)[p], refund)
    {
      if p !in payments || !payments[p].status.Paid? {
        return false;
      }
      if refund <= 0 || MAX_SAFE_INTEGER < refund || PaidTotal(payments[p]) < refund {
        return false;
      }
      done := RefundInTx(p, Some(refund), ToRefunded(Part, Wallet, refund), now, committed);
    }
  }

  /** Payment `p` has this status, and no other payment has changed. */
  ghost predicate OnlyStatus(before: map<int, Row>, after: map<int, Row>, p: int, status: Status) {
    && p in after && after[p].status == status
    && forall q :: q != p ==> (q in after <==> q in before) && (q in before ==> after[q] == before[q])
  }

  function KeyOf(selection: Selection): string {
    match selection
    case ByWallet => ""
    case ByGateway(gatewayKey) => gatewayKey
    case Split(gatewayKey, _) => gatewayKey
  }
}

/**
 When wallet money and rows part. A wallet key names the payment, the time of its settle attempt and the operation, so
 attempts at one time share their keys, and a wallet takes the second use of a key for the first.
 */
module PaymentReplays {
  import opened Common
  import opened Payment
  import opened PaymentRuns

  /** What a call asks of a wallet if it goes through. */
  function Asks(s: State, p: int, call: Call): Option<Move>
    requires p in s.payments && p in s.orders
  {
    var row := s.payments[p];
    match EffectOf(row, call)
    case Settles(a, at, _, _) =>
      if a.GatewayOnly? then None
      else Some(Move(s.orders[p].customer, PaymentKey(p, at, Withdraw), Withdraw, WalletShare(a)))
    case Updates(Some(amount), _, _) =>
      if row.customerId.None? || row.settleRequestedAt.None? then None
      else Some(Move(row.customerId.value, PaymentKey(p, row.settleRequestedAt.value, Deposit), Deposit, amount))
    case _ => None
  }

  /** A step that goes through uses a wallet key that is not in the ledger yet. */
  predicate UsesFreshKey(s: State, step: Step) {
    step.On? && step.p in s.payments && step.p in s.orders && Commits(s, step.p, step.call) ==>
      var m := Asks(s, step.p, step.call);
      m.Some? ==> Find(s.ledger, m.value.customer, m.value.key).None?
  }

  /** What every run keeps, whatever the times: rows pass their CHECKs, and only payments are paid for. */
  ghost predicate Sound(s: State) {
    && (forall p :: p in s.payments ==> p in s.orders && RowGood(s.orders[p], s.payments[p]))
    && (forall m :: m in s.ledger && m.key.PaymentKey? ==> m.key.payment in s.payments)
  }

  ghost predicate Matches(s: State) {
    forall p :: p in s.payments ==> Net(s.ledger, p) == Expected(s.payments[p])
  }

  // ---------------------------------------------------------------- one payment

  /** Only payment `p` changed, and at most one move for it was added. */
  ghost predicate OnlyChanged(s: State, s': State, p: int, m: Move) {
    && p in s'.payments && s'.orders == s.orders && s'.payments == s.payments[p := s'.payments[p]]
    && (s'.ledger == s.ledger || (s'.ledger == s.ledger + [m] && IsFor(m, p)))
  }

  lemma OneMatches(s: State, s': State, p: int, m: Move)
    requires Matches(s) && OnlyChanged(s, s', p, m)
    ensures Matches(s') <==> Net(s'.ledger, p) == Expected(s'.payments[p])
  {
    forall q | q in s'.payments && q != p
      ensures Net(s'.ledger, q) == Expected(s'.payments[q])
    {
      NetOfOne(s.ledger, m, q);
    }
  }

  lemma OneIsSound(s: State, s': State, p: int, m: Move)
    requires Sound(s) && p in s.orders && OnlyChanged(s, s', p, m) && RowGood(s.orders[p], s'.payments[p])
    ensures Sound(s')
  {
  }

  /** A committed settle leaves money and row in agreement exactly when its withdrawal key was not used before. */
  lemma SettleMatchesIff(s: State, p: int, a: Allocation, at: int, gatewayKey: string, code: int, r: Result<State, Error>)
    requires p in s.payments && p in s.orders && RowGood(s.orders[p], s.payments[p]) && Prepared(s, p, a, code)
    requires Net(s.ledger, p) == Expected(s.payments[p])
    requires r == SettleTx(s, p, a, at, gatewayKey, code) && r.Ok?
    ensures p in r.value.payments
    ensures Net(r.value.ledger, p) == Expected(r.value.payments[p]) <==>
            a.GatewayOnly? || Find(s.ledger, s.orders[p].customer, PaymentKey(p, at, Withdraw)).None?
  {
    SettledRowIsGood(s, p, a, at, gatewayKey, code);
    if !a.GatewayOnly? {
      var m := Move(s.orders[p].customer, PaymentKey(p, at, Withdraw), Withdraw, WalletShare(a));
      WithdrawalPays(s, m, p, RunIdempotently(s, m));
    }
  }

  /** A deposit gives back its amount, unless its key was used before. */
  lemma DepositReturns(s: State, m: Move, p: int, r: Result<State, Error>)
    requires r == RunIdempotently(s, m) && r.Ok? && IsFor(m, p) && m.operation.Deposit?
    ensures 0 < m.amount
    ensures Net(r.value.ledger, p) == Net(s.ledger, p) - if Find(s.ledger, m.customer, m.key).None? then m.amount else 0
  {
    NetOfOne(s.ledger, m, p);
  }

  /** A committed refund leaves them in agreement exactly when its deposit key was not used before. */
  lemma RefundMatchesIff(s: State, p: int, amount: Option<int>, update: Update, now: int, r: Result<State, Error>)
    requires p in s.payments && p in s.orders && RowGood(s.orders[p], s.payments[p])
    requires UpdateFits(s.payments[p], amount, update) && Net(s.ledger, p) == Expected(s.payments[p])
    requires r == RefundAndUpdate(s, p, amount, update, now) && r.Ok?
    ensures p in r.value.payments
    ensures amount.Some? ==> s.payments[p].settleRequestedAt.Some?
    ensures Net(r.value.ledger, p) == Expected(r.value.payments[p]) <==>
            (amount.Some? ==>
               Find(s.ledger, s.orders[p].customer, PaymentKey(p, s.payments[p].settleRequestedAt.value, Deposit)).None?)
  {
    var row := s.payments[p];
    UpdatedRowIsGood(s.orders[p], row, amount, update, now);
    if amount.Some? {
      var m := Move(s.orders[p].customer, PaymentKey(p, row.settleRequestedAt.value, Deposit), Deposit, amount.value);
      DepositReturns(s, m, p, RunIdempotently(s, m));
    }
  }

  // ---------------------------------------------------------------- every step

  lemma SettleStep(s: State, p: int, call: Call)
    requires Sound(s) && p in s.payments && call.Settle? && Commits(s, p, call)
    ensures var s' := ApplyCall(s, p, call);
            Sound(s') && (Matches(s) ==> (Matches(s') <==> UsesFreshKey(s, On(p, call))))
  {
    var r := SettleTx(s, p, call.a, call.at, call.gatewayKey, call.code);
    var m := Move(s.orders[p].customer, PaymentKey(p, call.at, Withdraw), Withdraw, WalletShare(call.a));
    SettledRowIsGood(s, p, call.a, call.at, call.gatewayKey, call.code);
    MoveOnce(s, m, RunIdempotently(s, m));
    assert OnlyChanged(s, r.value, p, m);
    OneIsSound(s, r.value, p, m);
    if Matches(s) {
      OneMatches(s, r.value, p, m);
      SettleMatchesIff(s, p, call.a, call.at, call.gatewayKey, call.code, r);
    }
  }

  lemma UpdateChanges(s: State, p: int, call: Call) returns (m: Move)
    requires Sound(s) && p in s.payments && EffectOf(s.payments[p], call).Updates? && Commits(s, p, call)
    ensures OnlyChanged(s, ApplyCall(s, p, call), p, m) && RowGood(s.orders[p], ApplyCall(s, p, call).payments[p])
  {
    var row, o := s.payments[p], s.orders[p];
    var Updates(amount, update, now) := EffectOf(row, call);
    m := Move(o.customer, PaymentKey(p, Value(row.settleRequestedAt), Deposit), Deposit, Value(amount));
    CallHasEffect(s, p, call);
    UpdatedRowIsGood(o, row, amount, update, now);
    MoveOnce(s, m, RunIdempotently(s, m));
  }

  lemma UpdateMatchesIff(s: State, p: int, call: Call)
    requires Sound(s) && p in s.payments && EffectOf(s.payments[p], call).Updates? && Commits(s, p, call)
    requires Net(s.ledger, p) == Expected(s.payments[p])
    ensures var s' := ApplyCall(s, p, call);
            p in s'.payments && (Net(s'.ledger, p) == Expected(s'.payments[p]) <==> UsesFreshKey(s, On(p, call)))
  {
    var Updates(amount, update, now) := EffectOf(s.payments[p], call);
    CallHasEffect(s, p, call);
    RefundMatchesIff(s, p, amount, update, now, RefundAndUpdate(s, p, amount, update, now));
  }

  lemma UpdateStep(s: State, p: int, call: Call)
    requires Sound(s) && p in s.payments && EffectOf(s.payments[p], call).Updates? && Commits(s, p, call)
    ensures var s' := ApplyCall(s, p, call);
            Sound(s') && (Matches(s) ==> (Matches(s') <==> UsesFreshKey(s, On(p, call))))
  {
    var m := UpdateChanges(s, p, call);
    OneIsSound(s, ApplyCall(s, p, call), p, m);
    if Matches(s) {
      OneMatches(s, ApplyCall(s, p, call), p, m);
      UpdateMatchesIff(s, p, call);
    }
  }

  lemma CallMatchesIff(s: State, p: int, call: Call)
    requires Sound(s) && p in s.payments
    ensures var s' := ApplyCall(s, p, call);
            Sound(s') && (Matches(s) ==> (Matches(s') <==> UsesFreshKey(s, On(p, call))))
  {
    CallHasEffect(s, p, call);
    if Commits(s, p, call) && call.Settle? {
      SettleStep(s, p, call);
    } else if Commits(s, p, call) && EffectOf(s.payments[p], call).Updates? {
      UpdateStep(s, p, call);
    }
  }

  lemma OtherStepsMatch(s: State, step: Step)
    requires Sound(s) && !step.On?
    ensures Sound(Apply(s, step)) && (Matches(s) ==> Matches(Apply(s, step)))
  {
    var s' := Apply(s, step);
    match step
    case Place(p, order) =>
      if s' != s {
        NetOfNone(s.ledger, p);
      }
    case MoveElsewhere(customer, operation, amount, text) =>
      var m := Move(customer, OtherKey(text), operation, amount);
      MoveOnce(s, m, RunIdempotently(s, m));
      forall q {
        NetOfOne(s.ledger, m, q);
      }
    case _ =>
  }

  /** From a state in agreement a step leads to one exactly when its wallet key is fresh. */
  lemma StepMatchesIff(s: State, step: Step)
    requires Sound(s)
    ensures Sound(Apply(s, step))
    ensures Matches(s) ==> (Matches(Apply(s, step)) <==> UsesFreshKey(s, step))
  {
    if step.On? {
      if step.p in s.payments {
        CallMatchesIff(s, step.p, step.call);
      }
    } else {
      OtherStepsMatch(s, step);
    }
  }

  // ---------------------------------------------------------------- runs

  ghost predicate MatchesAlong(s: State, steps: seq<Step>) {
    forall i :: 0 <= i <= |steps| ==> Matches(After(s, steps[..i]))
  }

  ghost predicate FreshAlong(s: State, steps: seq<Step>) {
    forall i :: 0 <= i < |steps| ==> UsesFreshKey(After(s, steps[..i]), steps[i])
  }

  lemma FreshOneMore(s: State, steps: seq<Step>, step: Step)
    ensures FreshAlong(s, steps + [step]) <==> FreshAlong(s, steps) && UsesFreshKey(After(s, steps), step)
  {
    var all := steps + [step];
    assert all[..|steps|] == steps && all[|steps|] == step;
    assert forall i :: 0 <= i < |steps| ==> all[..i] == steps[..i] && all[i] == steps[i];
  }

  /** Whatever the times, no run writes a row that a CHECK or the order's amounts would refuse. */
  lemma {:induction false} RowsStaySound(s: State, steps: seq<Step>)
    requires Initial(s)
    ensures Sound(After(s, steps))
  {
    if |steps| > 0 {
      RowsStaySound(s, steps[..|steps| - 1]);
      StepMatchesIff(After(s, steps[..|steps| - 1]), steps[|steps| - 1]);
    }
  }

  /**
   Over any run, with any times, crashes and failed gateway calls anywhere, every payment's wallet money matches its row
   all along exactly when every step that goes through uses a wallet key for the first time.
   */
  lemma RunMatchesIffKeysAreFresh(s: State, steps: seq<Step>)
    requires Initial(s)
    ensures MatchesAlong(s, steps) <==> FreshAlong(s, steps)
  {
    var matches: nat -> bool := (i: nat) => i <= |steps| && Matches(After(s, steps[..i]));
    var keyIsFresh: nat -> bool := (i: nat) => i < |steps| && UsesFreshKey(After(s, steps[..i]), steps[i]);
    forall i: nat | i < |steps| && matches(i)
      ensures matches(i + 1) <==> keyIsFresh(i)
    {
      StepOfRun(s, steps, i);
    }
    AllAlong(matches, keyIsFresh, |steps|);
    AllOfRun(s, steps, matches, keyIsFresh);
  }

  lemma StepOfRun(s: State, steps: seq<Step>, i: nat)
    requires Initial(s) && i < |steps|
    ensures Matches(After(s, steps[..i])) ==>
              (Matches(After(s, steps[..i + 1])) <==> UsesFreshKey(After(s, steps[..i]), steps[i]))
  {
    RowsStaySound(s, steps[..i]);
    StepMatchesIff(After(s, steps[..i]), steps[i]);
    AfterOneMore(s, steps[..i], steps[i]);
    assert steps[..i] + [steps[i]] == steps[..i + 1];
  }

  lemma AllOfRun(s: State, steps: seq<Step>, matches: nat -> bool, keyIsFresh: nat -> bool)
    requires forall i: nat :: i <= |steps| ==> (matches(i) <==> Matches(After(s, steps[..i])))
    requires forall i: nat :: i < |steps| ==> (keyIsFresh(i) <==> UsesFreshKey(After(s, steps[..i]), steps[i]))
    requires (forall i: nat :: i <= |steps| ==> matches(i)) <==> forall i: nat :: i < |steps| ==> keyIsFresh(i)
    ensures MatchesAlong(s, steps) <==> FreshAlong(s, steps)
  {
    if MatchesAlong(s, steps) {
      assert forall i: nat :: i <= |steps| ==> matches(i);
      forall i: nat | i < |steps|
        ensures UsesFreshKey(After(s, steps[..i]), steps[i])
      {
        assert keyIsFresh(i);
      }
    }
    if FreshAlong(s, steps) {
      assert forall i: nat :: i < |steps| ==> keyIsFresh(i);
      forall i: nat | i <= |steps|
        ensures Matches(After(s, steps[..i]))
      {
        assert matches(i);
      }
    }
  }

  /** A clock that moves on between two settles of a payment is enough for that. */
  lemma {:induction false} IncreasingTimesAreFresh(s: State, steps: seq<Step>)
    requires Initial(s) && SettleTimesIncrease(steps)
    ensures FreshAlong(s, steps)
  {
    forall i | 0 <= i <= |steps|
      ensures Matches(After(s, steps[..i]))
    {
      MoneyMatchesRows(s, steps[..i]);
      assert forall p :: p in After(s, steps[..i]).payments ==> PaymentGood(After(s, steps[..i]), p);
    }
    RunMatchesIffKeysAreFresh(s, steps);
  }

  // ---------------------------------------------------------------- a refund that is taken for an earlier one

  const ALL_AT_5 := On(1, Settle(GatewayOnly(100), 5, "g", 11))
  const BOTH_TICKETS := map[10 := TICKET_60, 11 := Ticket(1, 100, false)]
  const THERE_AND_BACK := [PAID_40, BACK_40]

  /** The row of the second attempt. */
  function Again(): Row {
    Settled(Updated(RowAt5(NEW_PAYMENT, 10), ToPending, 5), GatewayOnly(100), 7, 5, "g", 11)
  }

  lemma FirstAttemptIsFresh(row: Row)
    requires row == RowAt5(NEW_PAYMENT, 10)
    ensures UsesFreshKey(Snapshot(NEW_PAYMENT, [], 100, map[10 := TICKET_60]), SettleAt5(10))
    ensures UsesFreshKey(Snapshot(row, [PAID_40], 60, map[10 := TICKET_60]), On(1, Cancel(5)))
  {
    assert Find([PAID_40], 7, BACK_40.key).None?;
  }

  lemma SecondAttempt(row: Row)
    requires row == Updated(RowAt5(NEW_PAYMENT, 10), ToPending, 5)
    ensures var s := Snapshot(row, THERE_AND_BACK, 100, BOTH_TICKETS);
            Apply(s, ALL_AT_5) == Snapshot(Again(), THERE_AND_BACK, 100, BOTH_TICKETS) && UsesFreshKey(s, ALL_AT_5)
  {
  }

  lemma PaidAgain()
    ensures var s := Snapshot(Again(), THERE_AND_BACK, 100, BOTH_TICKETS);
            && Apply(s, On(1, Verify(Verified, 6))) ==
               Snapshot(Updated(Again(), ToPaid, 6), THERE_AND_BACK, 100, BOTH_TICKETS)
            && UsesFreshKey(s, On(1, Verify(Verified, 6)))
  {
  }

  lemma CreditedBefore(paid: Row)
    requires paid == Updated(Again(), ToPaid, 6)
    ensures Apply(Snapshot(paid, THERE_AND_BACK, 100, BOTH_TICKETS), On(1, RefundPart(40, 7))) ==
            Snapshot(Updated(paid, ToRefunded(Part, Wallet, 40), 7), THERE_AND_BACK, 100, BOTH_TICKETS)
  {
    assert Find(THERE_AND_BACK, 7, BACK_40.key) == Some(BACK_40);
  }

  lemma Extended(s: State, steps: seq<Step>, step: Step) returns (more: seq<Step>)
    requires FreshAlong(s, steps) && UsesFreshKey(After(s, steps), step)
    ensures more == steps + [step] && FreshAlong(s, more) && After(s, more) == Apply(After(s, steps), step)
  {
    more := steps + [step];
    FreshOneMore(s, steps, step);
    AfterOneMore(s, steps, step);
  }

  /** Split and cancelled, then paid by gateway alone within the same millisecond: every key so far was fresh. */
  lemma PaidTwiceAtOnce() returns (steps: seq<Step>)
    ensures FreshAlong(OPENING, steps)
    ensures After(OPENING, steps) == Snapshot(Updated(Again(), ToPaid, 6), THERE_AND_BACK, 100, BOTH_TICKETS)
  {
    var row := RowAt5(NEW_PAYMENT, 10);
    steps := [];
    steps := Extended(OPENING, steps, Place(1, Order(7, 100)));
    steps := Extended(OPENING, steps, Open(1, 10, 60));
    FirstAttemptIsFresh(row);
    FirstSettle();
    steps := Extended(OPENING, steps, SettleAt5(10));
    FirstCancel(row);
    steps := Extended(OPENING, steps, On(1, Cancel(5)));
    Opens(Updated(row, ToPending, 5), THERE_AND_BACK, 100, map[10 := TICKET_60], 11, 100);
    steps := Extended(OPENING, steps, Open(1, 11, 100));
    SecondAttempt(Updated(row, ToPending, 5));
    steps := Extended(OPENING, steps, ALL_AT_5);
    PaidAgain();
    steps := Extended(OPENING, steps, On(1, Verify(Verified, 6)));
  }

  /**
   No withdrawal was taken for an earlier one and money matched all along; yet a partial refund of 40 is recorded that
   no wallet received, since its key is that of the cancelled attempt's credit.
   */
  lemma SameMillisecondRefundIsNotPaid() returns (steps: seq<Step>)
    ensures Initial(OPENING) && MatchesAlong(OPENING, steps)
    ensures var before, after := After(OPENING, steps), After(OPENING, steps + [On(1, RefundPart(40, 7))]);
            && 1 in before.payments && before.payments[1].status.Paid?
            && 1 in after.payments && after.payments[1].refundedAmount == Some(40)
            && after.ledger == before.ledger && after.balances == before.balances
            && Net(after.ledger, 1) == 0 && Expected(after.payments[1]) == -40
  {
    steps := PaidTwiceAtOnce();
    RunMatchesIffKeysAreFresh(OPENING, steps);
    CreditedBefore(Updated(Again(), ToPaid, 6));
    AfterOneMore(OPENING, steps, On(1, RefundPart(40, 7)));
    ThereAndBackIsNothing();
  }
}

/** A delivered message belongs to its relay until the lease ends, whatever other relays do meanwhile. */
module OutboxExclusion {
  import opened Common
  import opened Outbox
  import opened OutboxClaim
  import opened OutboxClaimTheorems
  import opened OutboxHistory

  /** What other connections do: a write, or a whole claim with the writes that run between its statements. */
  datatype Act =
    | Write(st: Statement)
    | ClaimFor(owner: string, now: int, leaseMs: int, limit: nat, busy: set<int>,
               gap1: seq<Statement>, gap2: seq<Statement>, gap3: seq<Statement>)

  function ResultOf(s: Store, act: Act): Outcome
    requires act.ClaimFor?
  {
    Claim(s, act.owner, act.now, act.leaseMs, act.limit, act.busy, act.gap1, act.gap2, act.gap3)
  }

  function After(s: Store, acts: seq<Act>): Store
    decreases |acts|
  {
    if acts == [] then s
    else After(if acts[0].Write? then Step(s, acts[0].st) else ResultOf(s, acts[0]).final, acts[1..])
  }

  ghost predicate NotBy(sts: seq<Statement>, owner: string) {
    forall i :: 0 <= i < |sts| ==> !WrittenBy(sts[i], owner)
  }

  /** An act of others while the lease of `owner` runs. */
  ghost predicate ByOthers(act: Act, owner: string, until: int) {
    match act
    case Write(st) => !WrittenBy(st, owner)
    case ClaimFor(_, now, _, _, _, gap1, gap2, gap3) =>
      now < until && NotBy(gap1, owner) && NotBy(gap2, owner) && NotBy(gap3, owner)
  }

  ghost predicate LeasedTo(s: Store, n: int, owner: string, until: int) {
    n in s.live && s.live[n].leaseOwner == Some(owner) && s.live[n].leaseUntil == Some(until)
  }

  /** While the lease runs, no claim picks the row or a younger row of its key. */
  lemma NotPicked(s: Store, act: Act, n: int, owner: string, until: int)
    requires LeasedTo(s, n, owner, until) && act.ClaimFor? && act.now < until
    ensures forall m :: m in ResultOf(s, act).picked ==> m != n && m in s.live && !Before(s.live, n, m)
  {
    forall m | m in FirstOf(ClaimableRows(s.live, act.now, act.busy), act.limit)
      ensures m != n && m in s.live && !Before(s.live, n, m)
    {
      assert m in ClaimableRows(s.live, act.now, act.busy);
    }
  }

  /** Writes by others, between the statements of a claim, leave the row as it is. */
  lemma {:induction false} BesideKeeps(s: Store, sts: seq<Statement>, locked: set<int>, n: int, owner: string)
    requires n in s.live && s.live[n].leaseOwner == Some(owner) && NotBy(sts, owner)
    ensures n in RunBeside(s, sts, locked).live && RunBeside(s, sts, locked).live[n] == s.live[n]
    decreases |sts|
  {
    if sts != [] {
      assert !WrittenBy(sts[0], owner);
      StepIsMild(s, sts[0]);
      assert n !in Touches(s, sts[0]);
      BesideKeeps(StepBeside(s, sts[0], locked), sts[1..], locked, n, owner);
    }
  }

  lemma GiveBackKeeps(s: Store, back: seq<int>, n: int)
    requires n in s.live && n !in back
    ensures n in GiveBack(s, back).live && GiveBack(s, back).live[n] == s.live[n]
  {
  }

  lemma LeaseKeeps(live: Table, picked: set<int>, owner: string, until: int, n: int)
    requires n in live && n !in picked
    ensures n in LeaseRows(live, picked, owner, until) && LeaseRows(live, picked, owner, until)[n] == live[n]
  {
  }

  lemma ConcludeKeeps(due: seq<int>, look: Table, other: string, after: Store, n: int)
    requires (forall m :: m in due ==> m in look) && n !in due && n in after.live
    ensures n in Conclude(due, look, other, after).final.live && Conclude(due, look, other, after).final.live[n] == after.live[n]
  {
    GiveBackKeeps(after, Sift(due, look, other, {}).1, n);
  }

  /** As the last look sees it, a row that was not picked is as it was. */
  lemma LookKeeps(s: Store, picked: set<int>, other: string, lease: int, gap1: seq<Statement>, gap2: seq<Statement>,
                  n: int, owner: string)
    requires n in s.live && s.live[n].leaseOwner == Some(owner) && n !in picked && forall m :: m in picked ==> m in s.live
    requires NotBy(gap1, owner) && NotBy(gap2, owner)
    ensures n in LastLook(s, picked, other, lease, gap1, gap2).live
    ensures LastLook(s, picked, other, lease, gap1, gap2).live[n] == s.live[n]
  {
    var s1 := RunBeside(s, gap1, picked);
    BesideKeeps(s, gap1, picked, n, owner);
    LeaseKeeps(s1.live, picked, other, lease, n);
    BesideKeeps(s1.(live := LeaseRows(s1.live, picked, other, lease)), gap2, picked, n, owner);
  }

  lemma BeforeGivingBackKeeps(look: Store, picked: set<int>, gap3: seq<Statement>, n: int, owner: string)
    requires n in look.live && look.live[n].leaseOwner == Some(owner) && forall m :: m in picked ==> m in look.live
    requires NotBy(gap3, owner)
    ensures n in BeforeGivingBack(look, picked, gap3).live && BeforeGivingBack(look, picked, gap3).live[n] == look.live[n]
  {
    BesideKeeps(look, gap3, picked, n, owner);
  }

  lemma ClaimRowsKeeps(s: Store, due: seq<int>, other: string, now: int, leaseMs: int, gap1: seq<Statement>,
                       gap2: seq<Statement>, gap3: seq<Statement>, n: int, owner: string)
    requires n in s.live && s.live[n].leaseOwner == Some(owner) && n !in due && forall m :: m in due ==> m in s.live
    requires NotBy(gap1, owner) && NotBy(gap2, owner) && NotBy(gap3, owner)
    ensures var t := ClaimRows(s, due, other, now, leaseMs, gap1, gap2, gap3).final;
            n in t.live && t.live[n] == s.live[n]
  {
    var picked := Elements(due);
    var look := LastLook(s, picked, other, now + leaseMs, gap1, gap2);
    LookKeeps(s, picked, other, now + leaseMs, gap1, gap2, n, owner);
    BeforeGivingBackKeeps(look, picked, gap3, n, owner);
    ConcludeKeeps(due, look.live, other, BeforeGivingBack(look, picked, gap3), n);
  }

  /** A whole claim by another relay leaves the row as it is. */
  lemma ClaimKeeps(s: Store, act: Act, n: int, owner: string, until: int)
    requires LeasedTo(s, n, owner, until) && act.ClaimFor? && ByOthers(act, owner, until)
    ensures n in ResultOf(s, act).final.live && ResultOf(s, act).final.live[n] == s.live[n]
  {
    NotPicked(s, act, n, owner, until);
    var due := FirstOf(ClaimableRows(s.live, act.now, act.busy), act.limit);
    if due != [] {
      ClaimRowsKeeps(s, due, act.owner, act.now, act.leaseMs, act.gap1, act.gap2, act.gap3, n, owner);
    }
  }

  lemma ActKeeps(s: Store, act: Act, n: int, owner: string, until: int)
    requires LeasedTo(s, n, owner, until) && ByOthers(act, owner, until)
    ensures LeasedTo(After(s, [act]), n, owner, until)
  {
    if act.Write? {
      StepIsMild(s, act.st);
      assert n !in Touches(s, act.st);
    } else {
      ClaimKeeps(s, act, n, owner, until);
    }
  }

  /** Through any run of others' writes and claims that begin before the lease ends, the row stays leased. */
  lemma {:induction false} LeaseHolds(s: Store, acts: seq<Act>, n: int, owner: string, until: int)
    requires LeasedTo(s, n, owner, until)
    requires forall i :: 0 <= i < |acts| ==> ByOthers(acts[i], owner, until)
    ensures LeasedTo(After(s, acts), n, owner, until)
    decreases |acts|
  {
    if acts != [] {
      ActKeeps(s, acts[0], n, owner, until);
      assert After(s, [acts[0]]) == if acts[0].Write? then Step(s, acts[0].st) else ResultOf(s, acts[0]).final;
      LeaseHolds(After(s, [acts[0]]), acts[1..], n, owner, until);
    }
  }

  /** What a claim delivers is leased to its owner when it commits. */
  lemma DeliveredIsLeased(s: Store, act: Act, n: int, o: Outcome)
    requires act.ClaimFor? && o == ResultOf(s, act) && n in o.batch
    ensures LeasedTo(o.final, n, act.owner, act.now + act.leaseMs)
  {
    ClaimLeasesExactlyTheBatch(s, act.owner, act.now, act.leaseMs, act.limit, act.busy, act.gap1, act.gap2, act.gap3, o);
  }

  /** While the lease runs, no claim delivers the row or a younger row of its key. */
  lemma NotDelivered(s: Store, act: Act, n: int, owner: string, until: int, o: Outcome)
    requires LeasedTo(s, n, owner, until) && act.ClaimFor? && act.now < until && o == ResultOf(s, act)
    ensures forall m :: m in o.batch ==> m != n && m in s.live && !Before(s.live, n, m)
  {
    NotPicked(s, act, n, owner, until);
    ClaimLeasesExactlyTheBatch(s, act.owner, act.now, act.leaseMs, act.limit, act.busy, act.gap1, act.gap2, act.gap3, o);
  }

  /** What a claim may find when another relay's claim has delivered `n` before. */
  ghost predicate Excluded(later: Store, n: int, o: Outcome) {
    n in later.live && forall m :: m in o.batch ==> m != n && m in later.live && !Before(later.live, n, m)
  }

  /**
   No double delivery: a delivered message is leased to its relay (`DeliveredIsLeased`), and of a leased message and
   its younger siblings no claim by others that begins before the lease ends delivers anything, whatever other relays
   and producers did in between.
   */
  lemma NoDoubleDelivery(held: Store, acts: seq<Act>, next: Act, n: int, owner: string, until: int, o: Outcome)
    requires LeasedTo(held, n, owner, until) && next.ClaimFor? && next.now < until
    requires forall i :: 0 <= i < |acts| ==> ByOthers(acts[i], owner, until)
    requires o == ResultOf(After(held, acts), next)
    ensures Excluded(After(held, acts), n, o)
  {
    LeaseHolds(held, acts, n, owner, until);
    NotDelivered(After(held, acts), next, n, owner, until, o);
  }
}

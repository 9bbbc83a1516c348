/** How far an account can fall when workers check a balance and debit it in separate steps. */
module Overdraft {
  import opened Int64
  import opened Options
  import opened Sums
  import opened Ledger
  import opened Money

  /** Approved against account a, not debited yet. */
  function PendingOf(a: Address): Pc -> int {
    (pc: Pc) => if pc.Debit? && pc.tx.from == a then pc.tx.value else 0
  }

  function TxOf(pc: Pc): Option<Tx> {
    if pc.Query? || pc.Debit? || pc.Credit? || pc.Push? then Some(pc.tx) else None
  }

  predicate ValueWithin(v: Amount, max: nat) {
    0 <= v <= max
  }

  predicate PcWithin(pc: Pc, max: nat) {
    TxOf(pc).Some? ==> ValueWithin(TxOf(pc).value.value, max)
  }

  ghost predicate EventWithin(e: Event, max: nat) {
    e.Submit? ==> ValueWithin(e.tx.value, max)
  }

  ghost predicate AllWithin(pcs: seq<Pc>, max: nat) {
    forall p :: 0 <= p < |pcs| ==> PcWithin(pcs[p], max)
  }

  /** What would be left on an account if everything approved against it were debited. */
  ghost function Headroom(s: State, a: Address): int {
    Lookup(s.balances, a) - SumBy(s.pcs, PendingOf(a))
  }

  /** The lowest an account can get: every worker but one overdraws it by the largest value. */
  function Floor(workers: nat, max: nat): int {
    -(workers - 1) * max
  }

  /** The lowest that spending brings it to while one worker is replaying and cannot approve anything. */
  function FloorBeside(workers: nat, max: nat): int {
    if workers <= 1 then 0 else Floor(workers - 1, max)
  }

  /** What one genesis increment takes from an account. */
  function TakenBy(d: (Address, int), a: Address): nat {
    if Named(a) && d.0 == a && d.1 < 0 then -d.1 else 0
  }

  function Taken(ds: seq<(Address, int)>, a: Address): nat {
    if ds == [] then 0 else Taken(ds[..|ds| - 1], a) + TakenBy(ds[|ds| - 1], a)
  }

  /** How low an account can be by now: what the replay has taken so far comes on top of what all workers but two can
      overdraw, and once the replay is over, the account may instead be where all workers but one bring it. */
  ghost function Lowest(c: Config, s: State, max: nat, a: Address): int {
    if s.replayed > |c.genesis| then 0 else
    var beside := FloorBeside(|s.pcs|, max) - Taken(c.genesis[..s.replayed], a);
    if s.replayed < |c.genesis| || beside < Floor(|s.pcs|, max) then beside else Floor(|s.pcs|, max)
  }

  /** Before the init lock is taken, nobody has started. */
  ghost predicate BootInv(s: State) {
    s.initLock.None? ==> forall p :: 0 <= p < |s.pcs| ==> s.pcs[p] == Boot
  }

  ghost predicate OverdraftInv(c: Config, s: State, max: nat) {
    && AllWithin(s.pcs, max) && ReplayInv(c, s) && BootInv(s)
    && forall a :: Headroom(s, a) >= Lowest(c, s, max, a)
  }

  /** All workers together have at most max each pending, one that has nothing pending left aside. */
  lemma {:induction false} PendingIsBounded(pcs: seq<Pc>, a: Address, max: nat)
    requires AllWithin(pcs, max)
    ensures 0 <= SumBy(pcs, PendingOf(a)) <= |pcs| * max
    ensures forall p :: 0 <= p < |pcs| && !pcs[p].Debit? ==> -SumBy(pcs, PendingOf(a)) >= Floor(|pcs|, max)
  {
    var n := |pcs| - 1;
    if pcs != [] {
      PendingIsBounded(pcs[..n], a, max);
      assert (n + 1) * max == n * max + max;
      assert forall p :: 0 <= p < n ==> pcs[..n][p] == pcs[p];
      if n > 0 {
        assert n * max == (n - 1) * max + max;
      }
    }
  }

  /** Two that have nothing pending left aside. */
  lemma {:induction false} PendingBesideTwo(pcs: seq<Pc>, a: Address, max: nat, p: nat, q: nat)
    requires AllWithin(pcs, max) && p < q < |pcs| && !pcs[p].Debit? && !pcs[q].Debit?
    ensures -SumBy(pcs, PendingOf(a)) >= FloorBeside(|pcs|, max)
  {
    var n := |pcs| - 1;
    assert pcs[..n][p] == pcs[p];
    if q == n {
      PendingIsBounded(pcs[..n], a, max);
    } else {
      PendingBesideTwo(pcs[..n], a, max, p, q);
      assert (n - 1) * max == (n - 2) * max + max;
    }
  }

  /** An INCRBY by d moves one account by d, or moves nothing. */
  lemma IncrementAt(s: State, key: Address, d: int, a: Address)
    ensures Lookup(Increment(s, key, d).balances, a) ==
            Lookup(s.balances, a) + if a == key && Named(key) && InRange(Lookup(s.balances, key) + d) then d else 0
  {
  }

  lemma HeadroomAfterMove(s: State, s': State, p: nat, a: Address)
    requires p < |s.pcs| && |s'.pcs| == |s.pcs| && s'.pcs == s.pcs[p := s'.pcs[p]]
    ensures Headroom(s', a) == Headroom(s, a) + Lookup(s'.balances, a) - Lookup(s.balances, a)
                               + PendingOf(a)(s.pcs[p]) - PendingOf(a)(s'.pcs[p])
  {
    hide Lookup;
    SumByUpdate(s.pcs, p, s'.pcs[p], PendingOf(a));
  }

  predicate MovesMoney(pc: Pc) {
    pc.Replay? || pc.Debit? || pc.Credit?
  }

  /** What this step of the replay takes. */
  function TakenNow(pc: Pc, e: Event, a: Address): nat {
    if e.Advance? && pc.Replay? && pc.rest != [] then TakenBy(pc.rest[0], a) else 0
  }

  lemma HeadroomWhenMoneyMoves(c: Config, s: State, p: nat, max: nat, a: Address)
    requires |c.ids| == |s.pcs| && p < |s.pcs| && MovesMoney(s.pcs[p]) && PcWithin(s.pcs[p], max)
    ensures Headroom(Step(c, s, Advance(p)), a) >= Headroom(s, a) - TakenNow(s.pcs[p], Advance(p), a)
  {
    hide Increment, Headroom, Lookup;
    HeadroomAfterMove(s, Step(c, s, Advance(p)), p, a);
    match s.pcs[p] {
      case Replay(rest) =>
        if rest != [] {
          IncrementAt(s, rest[0].0, rest[0].1, a);
        }
      case Debit(tx) => IncrementAt(s, tx.from, -tx.value, a);
      case Credit(tx) => IncrementAt(s, tx.to, tx.value, a);
    }
  }

  lemma QuietStep(c: Config, s: State, e: Event)
    requires |c.ids| == |s.pcs| && Enabled(s, e) && (e.Advance? ==> !MovesMoney(s.pcs[e.p]))
    ensures var s', pc := Step(c, s, e), s.pcs[e.p];
            && s'.balances == s.balances && s'.pcs == s.pcs[e.p := s'.pcs[e.p]]
            && (s'.pcs[e.p].Debit? ==>
                  s'.pcs[e.p] == pc || (pc.Query? && s'.pcs[e.p].tx == pc.tx && Lookup(s.balances, pc.tx.from) >= pc.tx.value))
  {
  }

  /** No step but an approval, which the balance covers, and a replay step that takes from the account lowers its
      headroom, and each by no more than the amount. */
  lemma HeadroomOnlyDropsOnApproval(c: Config, s: State, e: Event, max: nat, a: Address)
    requires |c.ids| == |s.pcs| && Enabled(s, e)
    requires PcWithin(s.pcs[e.p], max)
    ensures var s', pc := Step(c, s, e), s.pcs[e.p];
            Headroom(s', a) >= Headroom(s, a) - TakenNow(pc, e, a)
            || (e.Advance? && pc.Query? && pc.tx.from == a && Lookup(s.balances, a) >= pc.tx.value
                && Headroom(s', a) == Headroom(s, a) - pc.tx.value)
  {
    hide Step, Headroom, Lookup;
    if e.Advance? && MovesMoney(s.pcs[e.p]) {
      HeadroomWhenMoneyMoves(c, s, e.p, max, a);
    } else {
      QuietStep(c, s, e);
      HeadroomAfterMove(s, Step(c, s, e), e.p, a);
    }
  }

  /** While the replay is not over, somebody other than a worker with a transaction has nothing pending. */
  lemma SomebodyReplays(c: Config, s: State, p: nat) returns (q: nat)
    requires ReplayInv(c, s) && BootInv(s) && s.replayed < |c.genesis|
    requires p < |s.pcs| && s.pcs[p].Query?
    ensures q < |s.pcs| && q != p && s.pcs[q].Replay?
  {
    q :| 0 <= q < |s.pcs| && s.pcs[q].Replay?;
  }

  /** All that is pending when a worker approves does not go below the lowest point. */
  lemma PendingIsCovered(c: Config, s: State, p: nat, max: nat, a: Address)
    requires AllWithin(s.pcs, max) && ReplayInv(c, s) && BootInv(s) && p < |s.pcs| && s.pcs[p].Query?
    ensures -SumBy(s.pcs, PendingOf(a)) >= Lowest(c, s, max, a)
  {
    hide ReplayInv, BootInv, Floor, FloorBeside, Taken, AllWithin, SumBy;
    PendingIsBounded(s.pcs, a, max);
    ReplayedBounded(c, s);
    if s.replayed < |c.genesis| {
      var q := SomebodyReplays(c, s, p);
      PendingBesideTwo(s.pcs, a, max, if p < q then p else q, if p < q then q else p);
    }
  }

  lemma TakenNext(ds: seq<(Address, int)>, k: nat, a: Address)
    requires k < |ds|
    ensures Taken(ds[..k + 1], a) == Taken(ds[..k], a) + TakenBy(ds[k], a)
  {
    assert ds[..k + 1][..k] == ds[..k];
  }

  /** The lowest point moves down with what the replay takes, and otherwise stays. */
  lemma LowestAfterStep(c: Config, s: State, e: Event, max: nat, a: Address)
    requires |c.ids| == |s.pcs| && Enabled(s, e) && ReplayInv(c, s)
    ensures Lowest(c, Step(c, s, e), max, a) <= Lowest(c, s, max, a) - TakenNow(s.pcs[e.p], e, a)
  {
    hide Step, Floor, FloorBeside, Taken, TakenBy;
    StepReplays(c, s, e);
    ReplayedBounded(c, s);
    if e.Advance? && s.pcs[e.p].Replay? && s.pcs[e.p].rest != [] {
      TakenNext(c.genesis, s.replayed, a);
    }
  }

  lemma StepKeepsOverdraftAt(c: Config, s: State, e: Event, max: nat, a: Address)
    requires |c.ids| == |s.pcs| && OverdraftInv(c, s, max)
    ensures Headroom(Step(c, s, e), a) >= Lowest(c, Step(c, s, e), max, a)
  {
    hide Step, Lowest, SumBy, PcWithin, ReplayInv, BootInv, TakenNow;
    if Enabled(s, e) {
      assert Headroom(s, a) >= Lowest(c, s, max, a);
      HeadroomOnlyDropsOnApproval(c, s, e, max, a);
      LowestAfterStep(c, s, e, max, a);
      if e.Advance? && s.pcs[e.p].Query? {
        PendingIsCovered(c, s, e.p, max, a);
      }
    } else {
      DisabledChangesNothing(c, s, e);
    }
  }

  lemma NextPcIsWithin(c: Config, s: State, e: Event, max: nat)
    requires |c.ids| == |s.pcs| && EventWithin(e, max)
    requires Enabled(s, e) && PcWithin(s.pcs[e.p], max)
    ensures PcWithin(Step(c, s, e).pcs[e.p], max) && Step(c, s, e).pcs == s.pcs[e.p := Step(c, s, e).pcs[e.p]]
  {
    hide Increment;
  }

  lemma StepKeepsWithin(c: Config, s: State, e: Event, max: nat)
    requires |c.ids| == |s.pcs| && EventWithin(e, max)
    requires AllWithin(s.pcs, max)
    ensures AllWithin(Step(c, s, e).pcs, max)
  {
    hide Step, PcWithin;
    if Enabled(s, e) {
      NextPcIsWithin(c, s, e, max);
    } else {
      DisabledChangesNothing(c, s, e);
    }
  }

  lemma StepKeepsBoot(c: Config, s: State, e: Event)
    requires |c.ids| == |s.pcs| && BootInv(s)
    ensures BootInv(Step(c, s, e))
  {
    hide Increment;
  }

  /** Every step keeps the headroom of every account at or above the lowest point, whatever the genesis block does. */
  lemma StepKeepsOverdraft(c: Config, s: State, e: Event, max: nat)
    requires |c.ids| == |s.pcs| && OverdraftInv(c, s, max) && EventWithin(e, max)
    ensures OverdraftInv(c, Step(c, s, e), max)
  {
    hide Step, AllWithin, Headroom, Lowest, ReplayInv, BootInv;
    StepKeepsWithin(c, s, e, max);
    StepKeepsReplay(c, s, e);
    StepKeepsBoot(c, s, e);
    forall a ensures Headroom(Step(c, s, e), a) >= Lowest(c, Step(c, s, e), max, a) {
      StepKeepsOverdraftAt(c, s, e, max, a);
    }
  }

  lemma FloorsAreNotPositive(workers: nat, max: nat)
    requires workers > 0
    ensures Floor(workers, max) <= FloorBeside(workers, max) <= 0
  {
    if workers > 1 {
      assert (workers - 1) * max == (workers - 2) * max + max && (workers - 2) * max >= 0;
    }
  }

  lemma StartIsWithin(c: Config, s: State, max: nat)
    requires Start(c, s) && |c.ids| > 0
    requires forall a :: Lookup(s.balances, a) >= 0
    ensures OverdraftInv(c, s, max)
  {
    hide Lookup, SumBy, Floor, FloorBeside, Taken;
    FloorsAreNotPositive(|s.pcs|, max);
    forall a ensures Headroom(s, a) >= Lowest(c, s, max, a) {
      SumByAtBoot(s.pcs, PendingOf(a));
    }
  }

  lemma {:induction false} RunKeepsOverdraft(c: Config, s: State, es: seq<Event>, max: nat)
    requires Start(c, s) && |c.ids| > 0
    requires forall a :: Lookup(s.balances, a) >= 0
    requires forall i :: 0 <= i < |es| ==> EventWithin(es[i], max)
    ensures OverdraftInv(c, Run(c, s, es), max)
  {
    hide Step, OverdraftInv, EventWithin;
    if es == [] {
      StartIsWithin(c, s, max);
    } else {
      RunKeepsOverdraft(c, s, es[..|es| - 1], max);
      StepKeepsOverdraft(c, Run(c, s, es[..|es| - 1]), es[|es| - 1], max);
    }
  }

  /** With N workers and values between 0 and max, whatever the genesis block and the interleaving: an account is never
      below -(N-2) * max less what the replay has taken from it so far, or, once the replay is over, below that and
      below -(N-1) * max. */
  lemma OverdraftBound(c: Config, s: State, es: seq<Event>, max: nat, a: Address)
    requires Start(c, s) && |c.ids| > 0
    requires forall a :: Lookup(s.balances, a) >= 0
    requires forall i :: 0 <= i < |es| ==> EventWithin(es[i], max)
    ensures Lookup(Run(c, s, es).balances, a) >= Lowest(c, Run(c, s, es), max, a)
  {
    hide Step, Run, Lowest;
    RunKeepsOverdraft(c, s, es, max);
    assert Headroom(Run(c, s, es), a) >= Lowest(c, Run(c, s, es), max, a);
    PendingIsBounded(Run(c, s, es).pcs, a, max);
  }

  lemma {:induction false} TakenGrows(ds: seq<(Address, int)>, k: nat, a: Address)
    requires k <= |ds|
    ensures Taken(ds[..k], a) <= Taken(ds, a)
  {
    if k < |ds| {
      TakenGrows(ds[..|ds| - 1], k, a);
      assert ds[..|ds| - 1][..k] == ds[..k];
    } else {
      assert ds[..k] == ds;
    }
  }

  /** If the genesis block takes no more than one largest value from the account, or with one worker nothing, the account
      never falls below -(N-1) * max; with one worker it never goes negative. */
  lemma OverdraftBoundSmallGenesis(c: Config, s: State, es: seq<Event>, max: nat, a: Address)
    requires Start(c, s) && |c.ids| > 0
    requires Taken(c.genesis, a) <= if |c.ids| == 1 then 0 else max
    requires forall a :: Lookup(s.balances, a) >= 0
    requires forall i :: 0 <= i < |es| ==> EventWithin(es[i], max)
    ensures Lookup(Run(c, s, es).balances, a) >= Floor(|c.ids|, max)
    ensures |c.ids| == 1 ==> Lookup(Run(c, s, es).balances, a) >= 0
  {
    hide Step, Run, EventWithin, Lookup, Taken;
    OverdraftBound(c, s, es, max, a);
    GenesisIsReplayedOnce(c, s, es);
    ReplayedBounded(c, Run(c, s, es));
    TakenGrows(c.genesis, Run(c, s, es).replayed, a);
    FloorBesideFloor(|c.ids|, max);
  }

  lemma FloorBesideFloor(workers: nat, max: nat)
    requires workers > 0
    ensures FloorBeside(workers, max) - (if workers == 1 then 0 else max) == Floor(workers, max)
  {
    if workers > 1 {
      assert (workers - 1) * max == (workers - 2) * max + max;
    }
  }
}

/** When Redis never refuses an increment as out of range. */
module Overflow {
  import opened Int64
  import opened Sums
  import opened Ledger

  function Abs(v: int): nat {
    if v < 0 then -v else v
  }

  function Magnitude(ds: seq<(Address, int)>): nat {
    if ds == [] then 0 else Abs(ds[0].1) + Magnitude(ds[1..])
  }

  /** How much a worker may still move, on any one account, before it is idle again. */
  function StillToMove(pc: Pc): int {
    match pc
    case Query(tx) => 2 * Abs(tx.value)
    case Debit(tx) => 2 * Abs(tx.value)
    case Credit(tx) => Abs(tx.value)
    case Replay(rest) => Magnitude(rest)
    case _ => 0
  }

  /** The amounts submitted, each of which moves at most twice. */
  function Volume(es: seq<Event>): nat {
    if es == [] then 0
    else Volume(es[..|es| - 1]) + if es[|es| - 1].Submit? then 2 * Abs(es[|es| - 1].tx.value) else 0
  }

  ghost function Replayable(c: Config, s: State): nat {
    if s.initLock.None? then Magnitude(c.genesis) else 0
  }

  /** No balance, not even with everything still to move added, exceeds the bound. */
  ghost predicate BoundInv(c: Config, s: State, bound: int) {
    && SumBy(s.pcs, StillToMove) >= 0
    && forall a :: Abs(Lookup(s.balances, a)) + SumBy(s.pcs, StillToMove) + Replayable(c, s) <= bound
  }

  lemma {:induction false} NothingNegativeToMove(pcs: seq<Pc>, p: nat)
    requires p < |pcs|
    ensures SumBy(pcs, StillToMove) >= StillToMove(pcs[p]) >= 0
  {
    var n := |pcs| - 1;
    if p < n {
      NothingNegativeToMove(pcs[..n], p);
    } else if n > 0 {
      NothingNegativeToMove(pcs[..n], 0);
    }
  }

  lemma IncrementWithin(s: State, key: Address, d: int, left: int, bound: int)
    requires left >= 0 && bound <= MAX_INT64
    requires forall a :: Abs(Lookup(s.balances, a)) + Abs(d) + left <= bound
    ensures var s' := Increment(s, key, d);
            s'.refusals == s.refusals && forall a :: Abs(Lookup(s'.balances, a)) + left <= bound
  {
    assert Abs(Lookup(s.balances, key)) + Abs(d) + left <= bound;
    var s' := Increment(s, key, d);
    forall a ensures Abs(Lookup(s'.balances, a)) + left <= bound {
      assert Abs(Lookup(s.balances, a)) + Abs(d) + left <= bound;
    }
  }

  lemma SumByOfStep(c: Config, s: State, e: Event)
    requires |c.ids| == |s.pcs| && Enabled(s, e)
    ensures var s' := Step(c, s, e);
            SumBy(s'.pcs, StillToMove) == SumBy(s.pcs, StillToMove) - StillToMove(s.pcs[e.p]) + StillToMove(s'.pcs[e.p])
  {
    hide Increment;
    var s' := Step(c, s, e);
    assert s'.pcs == s.pcs[e.p := s'.pcs[e.p]];
    SumByUpdate(s.pcs, e.p, s'.pcs[e.p], StillToMove);
  }

  lemma MoneyStepKeepsBound(c: Config, s: State, p: nat, bound: int)
    requires |c.ids| == |s.pcs| && p < |s.pcs| && bound <= MAX_INT64 && BoundInv(c, s, bound)
    requires s.pcs[p].Debit? || s.pcs[p].Credit? || s.pcs[p].Replay?
    ensures BoundInv(c, Step(c, s, Advance(p)), bound) && Step(c, s, Advance(p)).refusals == s.refusals
  {
    hide Increment, Lookup, SumBy;
    var s' := Step(c, s, Advance(p));
    SumByOfStep(c, s, Advance(p));
    NothingNegativeToMove(s.pcs, p);
    NothingNegativeToMove(s'.pcs, p);
    var left := SumBy(s'.pcs, StillToMove) + Replayable(c, s);
    match s.pcs[p] {
      case Debit(tx) => IncrementWithin(s, tx.from, -tx.value, left, bound);
      case Credit(tx) => IncrementWithin(s, tx.to, tx.value, left, bound);
      case Replay(rest) =>
        if rest != [] {
          IncrementWithin(s, rest[0].0, rest[0].1, left, bound);
        }
    }
  }

  lemma QuietStepKeepsBound(c: Config, s: State, e: Event, bound: int)
    requires |c.ids| == |s.pcs| && Enabled(s, e) && BoundInv(c, s, bound)
    requires e.Advance? ==> !s.pcs[e.p].Debit? && !s.pcs[e.p].Credit? && !s.pcs[e.p].Replay?
    ensures Step(c, s, e).refusals == s.refusals
    ensures BoundInv(c, Step(c, s, e), bound + if e.Submit? then 2 * Abs(e.tx.value) else 0)
  {
    hide Increment, Lookup, SumBy, Magnitude;
    var s' := Step(c, s, e);
    SumByOfStep(c, s, e);
    NothingNegativeToMove(s'.pcs, e.p);
    assert s'.balances == s.balances;
    assert SumBy(s'.pcs, StillToMove) + Replayable(c, s')
           <= SumBy(s.pcs, StillToMove) + Replayable(c, s) + if e.Submit? then 2 * Abs(e.tx.value) else 0;
  }

  lemma {:induction false} RunKeepsBound(c: Config, s: State, es: seq<Event>, bound: nat)
    requires Start(c, s) && |c.ids| > 0
    requires forall a :: Abs(Lookup(s.balances, a)) <= bound
    requires bound + Magnitude(c.genesis) + Volume(es) <= MAX_INT64
    ensures Run(c, s, es).refusals == 0
    ensures BoundInv(c, Run(c, s, es), bound + Magnitude(c.genesis) + Volume(es))
  {
    hide Step, Lookup, SumBy, StillToMove, BoundInv;
    if es == [] {
      assert BoundInv(c, s, bound + Magnitude(c.genesis)) by { StartBound(c, s, bound); }
    } else {
      var before, e := Run(c, s, es[..|es| - 1]), es[|es| - 1];
      RunKeepsBound(c, s, es[..|es| - 1], bound);
      var all := bound + Magnitude(c.genesis) + Volume(es[..|es| - 1]);
      if !Enabled(before, e) {
        DisabledChangesNothing(c, before, e);
        LargerBound(c, before, all, bound + Magnitude(c.genesis) + Volume(es));
      } else if e.Advance? && (before.pcs[e.p].Debit? || before.pcs[e.p].Credit? || before.pcs[e.p].Replay?) {
        MoneyStepKeepsBound(c, before, e.p, all);
      } else {
        QuietStepKeepsBound(c, before, e, all);
      }
    }
  }

  lemma LargerBound(c: Config, s: State, bound: int, larger: int)
    requires BoundInv(c, s, bound) && bound <= larger
    ensures BoundInv(c, s, larger)
  {
  }

  lemma StartBound(c: Config, s: State, bound: nat)
    requires Start(c, s) && forall a :: Abs(Lookup(s.balances, a)) <= bound
    ensures BoundInv(c, s, bound + Magnitude(c.genesis))
  {
    SumByAtBoot(s.pcs, StillToMove);
  }

  /** As long as the largest balance, the genesis increments and twice the submitted values together fit an int64,
      no increment is refused, so the conservation law has no exception but the empty address. */
  lemma NothingIsRefused(c: Config, s: State, es: seq<Event>, bound: nat)
    requires Start(c, s) && |c.ids| > 0
    requires forall a :: Abs(Lookup(s.balances, a)) <= bound
    requires bound + Magnitude(c.genesis) + Volume(es) <= MAX_INT64
    ensures Run(c, s, es).refusals == 0 && Run(c, s, es).refused == 0
  {
    hide Run;
    RunKeepsBound(c, s, es, bound);
    NoRefusalRefusesNothing(c, s, es);
  }

  /** What a step refuses, it counts. */
  lemma RefusalsAreCounted(c: Config, s: State, e: Event)
    requires |c.ids| == |s.pcs|
    ensures Step(c, s, e).refusals >= s.refusals
    ensures Step(c, s, e).refusals == s.refusals ==> Step(c, s, e).refused == s.refused
  {
    hide Lookup;
  }

  lemma {:induction false} NoRefusalRefusesNothing(c: Config, s: State, es: seq<Event>)
    requires Start(c, s)
    ensures Run(c, s, es).refusals == 0 ==> Run(c, s, es).refused == 0
  {
    hide Step;
    if es != [] {
      NoRefusalRefusesNothing(c, s, es[..|es| - 1]);
      RefusalsAreCounted(c, Run(c, s, es[..|es| - 1]), es[|es| - 1]);
    }
  }
}

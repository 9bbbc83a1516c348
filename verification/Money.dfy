/** What the interleaved ledger does to money: conservation, and the genesis replay. */
module Money {
  import opened Sums
  import opened Ledger

  // ---- the genesis replay happens at most once ----

  ghost predicate ReplayInv(c: Config, s: State) {
    && s.replayed <= |c.genesis|
    && (forall p :: 0 <= p < |s.pcs| && s.pcs[p].Replay? ==> s.initLock.Some? && s.pcs[p].rest == c.genesis[s.replayed..])
    && (forall p, q :: 0 <= p < |s.pcs| && 0 <= q < |s.pcs| && s.pcs[p].Replay? && s.pcs[q].Replay? ==> p == q)
    && (s.initLock.None? ==> s.replayed == 0)
    && (s.initLock.Some? && (forall p :: 0 <= p < |s.pcs| ==> !s.pcs[p].Replay?) ==> s.replayed == |c.genesis|)
  }

  lemma ReplayInvElsewhere(c: Config, s: State, s': State, p: nat)
    requires ReplayInv(c, s) && p < |s.pcs| && !s.pcs[p].Replay?
    requires s'.initLock == s.initLock && s'.replayed == s.replayed
    requires |s'.pcs| == |s.pcs| && s'.pcs == s.pcs[p := s'.pcs[p]] && !s'.pcs[p].Replay?
    ensures ReplayInv(c, s')
  {
    assert forall q :: 0 <= q < |s.pcs| && s.pcs[q].Replay? ==> s'.pcs[q].Replay?;
  }

  lemma StepKeepsReplay(c: Config, s: State, e: Event)
    requires |c.ids| == |s.pcs| && ReplayInv(c, s)
    ensures ReplayInv(c, Step(c, s, e))
  {
    hide Increment;
    if Enabled(s, e) && (!e.Advance? || !(s.pcs[e.p].Replay? || s.pcs[e.p].Boot?)) {
      ReplayInvElsewhere(c, s, Step(c, s, e), e.p);
    } else if Enabled(s, e) {
      var s' := Step(c, s, e);
      assert s'.pcs == s.pcs[e.p := s'.pcs[e.p]];
      assert forall q :: 0 <= q < |s.pcs| && q != e.p ==> s'.pcs[q] == s.pcs[q];
      if s.pcs[e.p].Replay? && s.pcs[e.p].rest != [] {
        assert s.pcs[e.p].rest[1..] == c.genesis[s.replayed + 1..];
        assert s'.pcs[e.p].Replay?;
      } else if s.pcs[e.p].Boot? && s.initLock.None? {
        assert s'.pcs[e.p].Replay?;
      }
    }
  }

  /** The init lock is never released, so the workers together make each genesis increment at most once, in order; and
      all of them have been made once the lock is taken and nobody is replaying. */
  lemma {:induction false} GenesisIsReplayedOnce(c: Config, s: State, es: seq<Event>)
    requires Start(c, s)
    ensures ReplayInv(c, Run(c, s, es))
  {
    hide Step;
    if es != [] {
      GenesisIsReplayedOnce(c, s, es[..|es| - 1]);
      StepKeepsReplay(c, Run(c, s, es[..|es| - 1]), es[|es| - 1]);
    }
  }

  // ---- conservation ----

  /** Debited from the sender, not yet credited to the receiver. */
  function Owed(pc: Pc): int {
    if pc.Credit? then pc.tx.value else 0
  }

  ghost function Circulating(s: State): int {
    Total(s.balances) + SumBy(s.pcs, Owed)
  }

  /** What a replay adds to the accounts: an increment on the empty address adds nothing. */
  function NamedDelta(d: (Address, int)): int {
    if Named(d.0) then d.1 else 0
  }

  function SumDeltas(ds: seq<(Address, int)>): int {
    if ds == [] then 0 else SumDeltas(ds[..|ds| - 1]) + NamedDelta(ds[|ds| - 1])
  }

  lemma IncrementMovesTotal(s: State, key: Address, d: int)
    ensures var s' := Increment(s, key, d);
            Total(s'.balances) + s'.burned + s'.refused == Total(s.balances) + s.burned + s.refused + d
  {
    TotalAfterWrite(s.balances, key, Lookup(s.balances, key) + d);
  }

  /** Everything accounted for: what circulates, what the empty address swallowed, what Redis refused. */
  ghost function Accounted(s: State): int {
    Circulating(s) + s.burned + s.refused
  }

  lemma StepConserves(c: Config, s: State, e: Event)
    requires |c.ids| == |s.pcs|
    ensures var pc := if e.p < |s.pcs| then s.pcs[e.p] else Idle;
            Accounted(Step(c, s, e)) ==
            Accounted(s) + if e.Advance? && pc.Replay? && pc.rest != [] then NamedDelta(pc.rest[0]) else 0
  {
    hide Increment;
    if Enabled(s, e) {
      var s' := Step(c, s, e);
      assert s'.pcs == s.pcs[e.p := s'.pcs[e.p]];
      SumByUpdate(s.pcs, e.p, s'.pcs[e.p], Owed);
      if e.Advance? {
        match s.pcs[e.p] {
          case Replay(rest) =>
            if rest != [] {
              IncrementMovesTotal(s, rest[0].0, rest[0].1);
            }
          case Debit(tx) => IncrementMovesTotal(s, tx.from, -tx.value);
          case Credit(tx) => IncrementMovesTotal(s, tx.to, tx.value);
          case _ =>
        }
      }
    }
  }

  lemma {:induction false} SumDeltasNext(ds: seq<(Address, int)>, k: nat)
    requires k < |ds|
    ensures SumDeltas(ds[..k + 1]) == SumDeltas(ds[..k]) + NamedDelta(ds[k])
  {
    assert ds[..k + 1][..k] == ds[..k];
  }

  /** Money conservation, in every interleaving: balances plus amounts debited but not yet credited, plus what
      transactions credited to the empty address, plus what Redis refused, is what there was plus what the genesis
      increments made so far added to accounts.  Neither of the two losses need be positive: module Minting says when
      they are, that is, when submitted transactions add nothing. */
  lemma {:induction false} MoneyIsConserved(c: Config, s: State, es: seq<Event>)
    requires Start(c, s)
    ensures var t := Run(c, s, es);
            && t.replayed <= |c.genesis|
            && Circulating(t) + t.burned + t.refused == Total(s.balances) + SumDeltas(c.genesis[..t.replayed])
  {
    hide Step, ReplayInv;
    GenesisIsReplayedOnce(c, s, es);
    if es == [] {
      SumByAtBoot(s.pcs, Owed);
      ReplayedBounded(c, s);
    } else {
      var before, e := Run(c, s, es[..|es| - 1]), es[|es| - 1];
      MoneyIsConserved(c, s, es[..|es| - 1]);
      GenesisIsReplayedOnce(c, s, es[..|es| - 1]);
      StepConserves(c, before, e);
      StepReplays(c, before, e);
      ReplayedBounded(c, Run(c, s, es));
      if Step(c, before, e).replayed == before.replayed + 1 {
        SumDeltasNext(c.genesis, before.replayed);
      }
    }
  }

  lemma ReplayedBounded(c: Config, s: State)
    requires ReplayInv(c, s)
    ensures s.replayed <= |c.genesis|
  {
  }

  /** A replay step makes the next genesis increment; no other step makes any. */
  lemma StepReplays(c: Config, s: State, e: Event)
    requires |c.ids| == |s.pcs| && ReplayInv(c, s)
    ensures if e.p < |s.pcs| && e.Advance? && s.pcs[e.p].Replay? && s.pcs[e.p].rest != [] then
              && Step(c, s, e).replayed == s.replayed + 1
              && s.replayed < |c.genesis| && s.pcs[e.p].rest[0] == c.genesis[s.replayed]
            else Step(c, s, e).replayed == s.replayed
  {
  }

  ghost predicate SendersNamed(s: State) {
    forall p :: 0 <= p < |s.pcs| && (s.pcs[p].Debit? || s.pcs[p].Credit?) ==> s.pcs[p].tx.from != ""
  }

  /** The step credits the empty address. */
  predicate Burns(pc: Pc) {
    pc.Credit? && pc.tx.to == ""
  }

  /** Step by step, once a worker is initialised: what circulates changes only when a credit goes to the empty address,
      by exactly its value, or when Redis refuses an increment.  If Redis refuses nothing, it rises exactly at a credit
      of a negative value to the empty address, and falls exactly at one of a positive value. */
  lemma OnlyBurningDestroys(c: Config, s: State, e: Event)
    requires |c.ids| == |s.pcs| && Enabled(s, e) && !s.pcs[e.p].Replay? && !s.pcs[e.p].Boot?
    requires SendersNamed(s)
    ensures var s', pc := Step(c, s, e), s.pcs[e.p];
            && Circulating(s') == Circulating(s) - (s'.burned - s.burned) - (s'.refused - s.refused)
            && s'.burned == s.burned + (if Burns(pc) then pc.tx.value else 0)
            && (s'.refused == s.refused ==>
                  && (Circulating(s') > Circulating(s) <==> Burns(pc) && pc.tx.value < 0)
                  && (Circulating(s') < Circulating(s) <==> Burns(pc) && pc.tx.value > 0))
  {
    hide Circulating;
    StepConserves(c, s, e);
    StepBurns(c, s, e);
  }

  /** Only a credit to the empty address is counted as burned. */
  lemma StepBurns(c: Config, s: State, e: Event)
    requires |c.ids| == |s.pcs| && SendersNamed(s)
    ensures Step(c, s, e).burned == s.burned + (if Enabled(s, e) && Burns(s.pcs[e.p]) then s.pcs[e.p].tx.value else 0)
  {
    hide Lookup;
  }

  /** An empty sender never gets as far as a debit, in any run: nothing is minted that way. */
  lemma {:induction false} NoEmptySenderIsDebited(c: Config, s: State, es: seq<Event>)
    requires Start(c, s)
    ensures SendersNamed(Run(c, s, es))
  {
    hide Step, SendersNamed;
    if es == [] {
      StartNamesSenders(c, s);
    } else {
      NoEmptySenderIsDebited(c, s, es[..|es| - 1]);
      StepNamesSenders(c, Run(c, s, es[..|es| - 1]), es[|es| - 1]);
    }
  }

  lemma StartNamesSenders(c: Config, s: State)
    requires Start(c, s)
    ensures SendersNamed(s)
  {
  }

  lemma StepNamesSenders(c: Config, s: State, e: Event)
    requires |c.ids| == |s.pcs| && SendersNamed(s)
    ensures SendersNamed(Step(c, s, e))
  {
    hide Increment, Lookup;
    if Enabled(s, e) {
      assert Step(c, s, e).pcs == s.pcs[e.p := Step(c, s, e).pcs[e.p]];
    }
  }
}

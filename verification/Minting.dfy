/** Whether submitted transactions can raise the money in circulation.  They can: a negative value credited to the empty
    address is debited from nobody. */
module Minting {
  import opened Int64
  import opened Options
  import opened Sums
  import opened Ledger
  import opened Money
  import opened Overflow
  import opened Overdraft
  import opened OverdraftLimits

  // ---- one transaction ----

  /** The increment happens: the key has a name and the sum is in range. */
  predicate Moves(b: Balances, key: Address, d: int) {
    Named(key) && InRange(Lookup(b, key) + d)
  }

  lemma TotalAfterIncrBy(b: Balances, key: Address, d: int)
    ensures Total(IncrBy(b, key, d)) == Total(b) + if Moves(b, key, d) then d else 0
  {
    TotalAfterWrite(b, key, Lookup(b, key) + d);
  }

  /** For every stored balance and every transaction, range refusals included: an uninterrupted transaction creates money
      exactly when its value is negative, the sender is credited, and the opposite increment of the receiver does not
      happen, because the receiver is empty or would leave the 64-bit range. */
  lemma TransactionMintsIff(b: Balances, tx: Tx)
    requires forall a :: InRange(Lookup(b, a))
    ensures Total(Handle(b, tx)) > Total(b) <==>
            && tx.value < 0
            && Lookup(b, tx.from) >= tx.value && Moves(b, tx.from, -tx.value)
            && !Moves(IncrBy(b, tx.from, -tx.value), tx.to, tx.value)
  {
    hide Total, IncrBy;
    var mid := IncrBy(b, tx.from, -tx.value);
    TotalAfterIncrBy(b, tx.from, -tx.value);
    TotalAfterIncrBy(mid, tx.to, tx.value);
    assert InRange(Lookup(b, tx.from));
  }

  // ---- every run ----

  /** A transaction to the empty address does not have a negative value; one from the empty address is refused anyway. */
  predicate Sound(tx: Tx) {
    tx.from != "" && tx.to == "" ==> tx.value >= 0
  }

  ghost predicate SubmitsSound(es: seq<Event>) {
    forall i :: 0 <= i < |es| && es[i].Submit? ==> Sound(es[i].tx)
  }

  predicate SoundAt(pc: Pc) {
    TxOf(pc).Some? ==> Sound(TxOf(pc).value)
  }

  ghost predicate AllSound(s: State) {
    forall p :: 0 <= p < |s.pcs| ==> SoundAt(s.pcs[p])
  }

  lemma StepKeepsSound(c: Config, s: State, e: Event)
    requires |c.ids| == |s.pcs| && AllSound(s) && (e.Submit? ==> Sound(e.tx))
    ensures AllSound(Step(c, s, e))
  {
    hide Increment, Lookup, Sound;
    if Enabled(s, e) {
      assert Step(c, s, e).pcs == s.pcs[e.p := Step(c, s, e).pcs[e.p]];
      assert SoundAt(s.pcs[e.p]);
    }
  }

  lemma {:induction false} RunKeepsSound(c: Config, s: State, es: seq<Event>)
    requires Start(c, s) && SubmitsSound(es)
    ensures AllSound(Run(c, s, es))
  {
    hide Step;
    if es != [] {
      RunKeepsSound(c, s, es[..|es| - 1]);
      StepKeepsSound(c, Run(c, s, es[..|es| - 1]), es[|es| - 1]);
    }
  }

  /** If every submitted transaction is sound, burned never falls, in any interleaving. */
  lemma {:induction false} BurnedNeverFalls(c: Config, s: State, es: seq<Event>, k: nat)
    requires Start(c, s) && SubmitsSound(es) && k <= |es|
    ensures Run(c, s, es[..k]).burned <= Run(c, s, es).burned
  {
    hide Step;
    if k < |es| {
      var init := es[..|es| - 1];
      assert init[..k] == es[..k];
      BurnedNeverFalls(c, s, init, k);
      RunKeepsSound(c, s, init);
      NoEmptySenderIsDebited(c, s, init);
      var before, e := Run(c, s, init), es[|es| - 1];
      StepBurns(c, before, e);
      assert Enabled(before, e) ==> SoundAt(before.pcs[e.p]);
    } else {
      assert es[..k] == es;
    }
  }

  /** Then, as long as nothing can leave the 64-bit range, the money in circulation never exceeds what there was plus what
      the genesis replay added. */
  lemma SoundTransactionsAddNothing(c: Config, s: State, es: seq<Event>, bound: nat)
    requires Start(c, s) && |c.ids| > 0 && SubmitsSound(es)
    requires forall a :: Abs(Lookup(s.balances, a)) <= bound
    requires bound + Magnitude(c.genesis) + Volume(es) <= MAX_INT64
    ensures var t := Run(c, s, es);
            && t.replayed <= |c.genesis|
            && Circulating(t) <= Total(s.balances) + SumDeltas(c.genesis[..t.replayed])
  {
    hide Run, Circulating, Lookup, Abs;
    NothingIsRefused(c, s, es, bound);
    MoneyIsConserved(c, s, es);
    SoundNeverCreates(c, s, es);
  }

  lemma NothingRun(c: Config, s: State)
    requires Start(c, s)
    ensures Run(c, s, []).burned == 0
  {
  }

  // ---- and the condition is needed ----

  /** Every unsound transaction does mint: a run of one worker, from empty accounts, in which it is all that is submitted
      and Redis refuses nothing. */
  lemma UnsoundTransactionMints(tx: Tx) returns (c: Config, s: State, es: seq<Event>)
    requires !Sound(tx)
    ensures Start(c, s) && c.genesis == [] && Total(s.balances) == 0
    ensures forall i :: 0 <= i < |es| && es[i].Submit? ==> es[i].tx == tx
    ensures var t := Run(c, s, es);
            Circulating(t) == -tx.value > 0 && t.balances == map[tx.from := -tx.value] && t.refusals == 0
  {
    c, s := Config(["1"], []), State(map[], [], None, None, [], [Boot], [], [], 0, 0, 0, 0);
    var boot := [Advance(0), Advance(0)];
    var handle := HandleEvents(map[], 0, tx);
    es := boot + handle;
    OneBoots(c, s);
    RunAppend(c, s, boot, handle);
    HandleIsARun(c, Run(c, s, boot), 0, tx);
    NegativeIsCredited(tx);
    IdleOwesNothing(Run(c, s, es).pcs);
  }

  lemma IdleOwesNothing(pcs: seq<Pc>)
    requires |pcs| == 1 && pcs[0] == Idle
    ensures SumBy(pcs, Owed) == 0
  {
    assert SumBy(pcs[..0], Owed) == 0;
  }

  lemma OneBoots(c: Config, s: State)
    requires c == Config(["1"], []) && s == State(map[], [], None, None, [], [Boot], [], [], 0, 0, 0, 0)
    ensures Run(c, s, [Advance(0), Advance(0)]) == s.(initLock := Some("1"), pcs := [Idle])
  {
    assert [Advance(0), Advance(0)][..1] == [Advance(0)];
  }

  lemma NegativeIsCredited(tx: Tx)
    requires !Sound(tx)
    ensures Handle(map[], tx) == map[tx.from := -tx.value] && Total(map[tx.from := -tx.value]) == -tx.value
    ensures HandleRefusals(map[], tx) == 0
  {
    TotalAfterWrite(map[], tx.from, -tx.value);
  }

  // ---- both directions, over all runs ----

  ghost predicate SubmitsOnly(es: seq<Event>, txs: iset<Tx>) {
    forall i :: 0 <= i < |es| && es[i].Submit? ==> es[i].tx in txs
  }

  /** Money in circulation that was neither there at the start nor added by the genesis replay. */
  ghost function Created(c: Config, s: State, es: seq<Event>): int
    requires |c.ids| == |s.pcs|
  {
    var t := Run(c, s, es);
    Circulating(t) - Total(s.balances) - SumDeltas(if t.replayed <= |c.genesis| then c.genesis[..t.replayed] else [])
  }

  /** In no run of any number of workers, with these transactions submitted in any order and as often as one likes, and
      no increment refused, is money created. */
  ghost predicate NeverCreates(txs: iset<Tx>) {
    forall c, s, es :: Start(c, s) && SubmitsOnly(es, txs) && Run(c, s, es).refusals == 0 ==> Created(c, s, es) <= 0
  }

  lemma SoundNeverCreates(c: Config, s: State, es: seq<Event>)
    requires Start(c, s) && SubmitsSound(es) && Run(c, s, es).refusals == 0
    ensures Created(c, s, es) <= 0
  {
    hide Run, Circulating;
    NoRefusalRefusesNothing(c, s, es);
    MoneyIsConserved(c, s, es);
    BurnedNeverFalls(c, s, es, 0);
    NothingRun(c, s);
    assert es[..0] == [];
  }

  /** Submitted transactions never create money exactly when each of them is sound. */
  lemma NeverCreatesIffSound(txs: iset<Tx>)
    ensures NeverCreates(txs) <==> forall tx :: tx in txs ==> Sound(tx)
  {
    hide Run, Created, Circulating, Sound;
    if forall tx :: tx in txs ==> Sound(tx) {
      forall c, s, es | Start(c, s) && SubmitsOnly(es, txs) && Run(c, s, es).refusals == 0 ensures Created(c, s, es) <= 0 {
        SoundNeverCreates(c, s, es);
      }
    }
    forall tx | tx in txs && NeverCreates(txs) ensures Sound(tx) {
      if !Sound(tx) {
        var c, s, es := UnsoundTransactionMints(tx);
        assert SubmitsOnly(es, txs);
        CreatedFromNothing(c, s, es);
      }
    }
  }

  lemma CreatedFromNothing(c: Config, s: State, es: seq<Event>)
    requires Start(c, s) && c.genesis == [] && Total(s.balances) == 0
    ensures Created(c, s, es) == Circulating(Run(c, s, es))
  {
    hide Run, Circulating;
  }
}

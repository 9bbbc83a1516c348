/** Where the overdraft bound ends: it is reached, and it needs values that are not negative. */
module OverdraftLimits {
  import opened Int64
  import opened Options
  import opened Sums
  import opened Ledger
  import opened Overdraft

  // ---- workers in step ----

  const PAYER: Address := "a"

  function PayTx(max: nat): Tx
    requires max <= MAX_INT64
  {
    Tx("t", PAYER, "b", max)
  }

  /** Some workers, then n more of which the first k are at y, the others at x. */
  function Crew(lead: seq<Pc>, n: nat, k: nat, y: Pc, x: Pc): (pcs: seq<Pc>)
    ensures |pcs| == |lead| + n
  {
    lead + seq(n, i => if i < k then y else x)
  }

  lemma CrewEnds(lead: seq<Pc>, n: nat, x: Pc, y: Pc, z: Pc)
    ensures Crew(lead, n, n, y, x) == Crew(lead, n, 0, z, y)
  {
  }

  /** The next worker of the crew moves from x to y. */
  lemma CrewNext(lead: seq<Pc>, n: nat, k: nat, y: Pc, x: Pc)
    requires k < n
    ensures Crew(lead, n, k, y, x)[|lead| + k] == x
    ensures Crew(lead, n, k, y, x)[|lead| + k := y] == Crew(lead, n, k + 1, y, x)
  {
  }

  function AdvanceEach(first: nat, k: nat): seq<Event> {
    if k == 0 then [] else AdvanceEach(first, k - 1) + [Advance(first + k - 1)]
  }

  function SubmitEach(first: nat, k: nat, tx: Tx): seq<Event> {
    if k == 0 then [] else SubmitEach(first, k - 1, tx) + [Submit(first + k - 1, tx), Advance(first + k - 1)]
  }

  /** Where a worker that boots, or debits, goes, and what it leaves behind. */
  lemma BootStep(c: Config, s: State, p: nat)
    requires |c.ids| == |s.pcs| && p < |s.pcs| && s.pcs[p] == Boot && s.initLock.Some?
    ensures Step(c, s, Advance(p)) == s.(pcs := s.pcs[p := Idle])
  {
  }

  lemma ApproveStep(c: Config, s: State, p: nat, tx: Tx)
    requires |c.ids| == |s.pcs| && p < |s.pcs| && s.pcs[p] == Idle
    requires Named(tx.from) && Lookup(s.balances, tx.from) >= tx.value
    ensures Step(c, Step(c, s, Submit(p, tx)), Advance(p)) == s.(pcs := s.pcs[p := Debit(tx)])
  {
    assert s.pcs[p := Query(tx)][p := Debit(tx)] == s.pcs[p := Debit(tx)];
  }

  lemma DebitStep(c: Config, s: State, p: nat, max: nat, balance: int)
    requires |c.ids| == |s.pcs| && p < |s.pcs| && max <= MAX_INT64 && s.pcs[p] == Debit(PayTx(max))
    requires s.balances == map[PAYER := balance] && InRange(balance - max)
    ensures Step(c, s, Advance(p)) ==
            s.(balances := map[PAYER := balance - max], pcs := s.pcs[p := Credit(PayTx(max))])
  {
  }

  /** The rest of the crew finds the init lock taken. */
  lemma {:induction false} AllBoot(c: Config, s: State, lead: seq<Pc>, n: nat, k: nat)
    requires |c.ids| == |lead| + n && k <= n && s.initLock.Some? && s.pcs == Crew(lead, n, 0, Idle, Boot)
    ensures Run(c, s, AdvanceEach(|lead|, k)) == s.(pcs := Crew(lead, n, k, Idle, Boot))
  {
    hide Step, Run, Crew;
    if k == 0 {
      RunNothing(c, s);
    } else {
      var now := s.(pcs := Crew(lead, n, k - 1, Idle, Boot));
      AllBoot(c, s, lead, n, k - 1);
      RunOneMore(c, s, AdvanceEach(|lead|, k - 1), Advance(|lead| + k - 1));
      CrewNext(lead, n, k - 1, Idle, Boot);
      BootStep(c, now, |lead| + k - 1);
    }
  }

  /** Each of the crew reads the same sufficient balance. */
  lemma {:induction false} AllApprove(c: Config, s: State, lead: seq<Pc>, n: nat, k: nat, tx: Tx)
    requires |c.ids| == |lead| + n && k <= n && s.pcs == Crew(lead, n, 0, Debit(tx), Idle)
    requires Named(tx.from) && Lookup(s.balances, tx.from) >= tx.value
    ensures Run(c, s, SubmitEach(|lead|, k, tx)) == s.(pcs := Crew(lead, n, k, Debit(tx), Idle))
  {
    hide Step, Run, Crew, Lookup;
    if k == 0 {
      RunNothing(c, s);
    } else {
      var p, es := |lead| + k - 1, SubmitEach(|lead|, k - 1, tx);
      var now := s.(pcs := Crew(lead, n, k - 1, Debit(tx), Idle));
      AllApprove(c, s, lead, n, k - 1, tx);
      RunOneMore(c, s, es, Submit(p, tx));
      RunOneMore(c, s, es + [Submit(p, tx)], Advance(p));
      assert es + [Submit(p, tx)] + [Advance(p)] == SubmitEach(|lead|, k, tx);
      CrewNext(lead, n, k - 1, Debit(tx), Idle);
      ApproveStep(c, now, p, tx);
    }
  }

  lemma DebitsStayInRange(n: nat, k: nat, max: nat, balance: int)
    requires 0 < k <= n && balance <= MAX_INT64 && InRange(balance - n * max)
    ensures InRange(balance - k * max) && k * max == (k - 1) * max + max
  {
    assert (n - k) * max == n * max - k * max && (n - k) * max >= 0 && k * max >= 0;
  }

  /** Then each of the crew debits it. */
  lemma {:induction false} AllDebit(c: Config, s: State, lead: seq<Pc>, n: nat, k: nat, max: nat, balance: int)
    requires |c.ids| == |lead| + n && k <= n && max <= MAX_INT64
    requires s.pcs == Crew(lead, n, 0, Credit(PayTx(max)), Debit(PayTx(max)))
    requires s.balances == map[PAYER := balance] && balance <= MAX_INT64 && InRange(balance - n * max)
    ensures Run(c, s, AdvanceEach(|lead|, k)) ==
            s.(balances := map[PAYER := balance - k * max], pcs := Crew(lead, n, k, Credit(PayTx(max)), Debit(PayTx(max))))
  {
    hide Step, Run, Crew;
    var tx := PayTx(max);
    if k == 0 {
      RunNothing(c, s);
    } else {
      var p, before := |lead| + k - 1, balance - (k - 1) * max;
      var now := s.(balances := map[PAYER := before], pcs := Crew(lead, n, k - 1, Credit(tx), Debit(tx)));
      AllDebit(c, s, lead, n, k - 1, max, balance);
      RunOneMore(c, s, AdvanceEach(|lead|, k - 1), Advance(p));
      DebitsStayInRange(n, k, max, balance);
      CrewNext(lead, n, k - 1, Credit(tx), Debit(tx));
      DebitStep(c, now, p, max, before);
    }
  }

  lemma {:induction false} EachIsWithin(first: nat, k: nat, max: nat)
    requires max <= MAX_INT64
    ensures forall i :: 0 <= i < |AdvanceEach(first, k)| ==> EventWithin(AdvanceEach(first, k)[i], max)
    ensures forall i :: 0 <= i < |SubmitEach(first, k, PayTx(max))| ==> EventWithin(SubmitEach(first, k, PayTx(max))[i], max)
  {
    if k > 0 {
      EachIsWithin(first, k - 1, max);
    }
  }

  function Workers(n: nat, genesis: seq<(Address, int)>): Config {
    Config(seq(n, _ => "w"), genesis)
  }

  function Fresh(balances: Balances, pcs: seq<Pc>): State {
    State(balances, [], None, None, [], pcs, [], [], 0, 0, 0, 0)
  }

  // ---- the bound is reached ----

  /** Without a genesis block the first worker is done with initialising at once. */
  lemma FirstBoots(n: nat, balances: Balances)
    requires n > 0
    ensures var c, s := Workers(n, []), Fresh(balances, Crew([Boot], n - 1, 0, Idle, Boot));
            Run(c, s, [Advance(0), Advance(0)])
            == s.(initLock := Some("w"), pcs := Crew([Idle], n - 1, 0, Idle, Boot))
  {
    hide Run;
    var c, s := Workers(n, []), Fresh(balances, Crew([Boot], n - 1, 0, Idle, Boot));
    var s1 := s.(initLock := Some("w"), pcs := Crew([Replay([])], n - 1, 0, Idle, Boot));
    assert s.pcs[0 := Replay([])] == s1.pcs;
    assert s1.pcs[0 := Idle] == Crew([Idle], n - 1, 0, Idle, Boot);
    RunNothing(c, s);
    RunOneMore(c, s, [], Advance(0));
    assert Step(c, s, Advance(0)) == s1;
    assert [] + [Advance(0)] == [Advance(0)];
    RunOneMore(c, s, [Advance(0)], Advance(0));
    assert [Advance(0)] + [Advance(0)] == [Advance(0), Advance(0)];
  }

  lemma StartFresh(n: nat, genesis: seq<(Address, int)>, balances: Balances)
    requires n > 0
    ensures Start(Workers(n, genesis), Fresh(balances, Crew([Boot], n - 1, 0, Idle, Boot)))
    ensures |Workers(n, genesis).ids| == n
  {
  }

  /** A whole crew approves, then debits. */
  lemma CrewOverdraws(c: Config, s: State, lead: seq<Pc>, n: nat, max: nat, balance: int)
    requires |c.ids| == |lead| + n && max <= MAX_INT64 && max <= balance <= MAX_INT64 && InRange(balance - n * max)
    requires s.pcs == Crew(lead, n, 0, Debit(PayTx(max)), Idle) && s.balances == map[PAYER := balance]
    ensures Run(c, s, SubmitEach(|lead|, n, PayTx(max)) + AdvanceEach(|lead|, n)).balances == map[PAYER := balance - n * max]
  {
    hide Step, Run, Crew, SubmitEach, AdvanceEach;
    var tx := PayTx(max);
    AllApprove(c, s, lead, n, n, tx);
    CrewEnds(lead, n, Idle, Debit(tx), Credit(tx));
    var now := s.(pcs := Crew(lead, n, n, Debit(tx), Idle));
    RunAppend(c, s, SubmitEach(|lead|, n, tx), AdvanceEach(|lead|, n));
    AllDebit(c, now, lead, n, n, max, balance);
  }

  /** For every number of workers and every largest value the bound of OverdraftBound is reached: each worker reads the
      same sufficient balance before any of them debits it. */
  lemma OverdraftIsReached(n: nat, max: nat) returns (c: Config, s: State, es: seq<Event>)
    requires n > 0 && max <= MAX_INT64 && InRange(Floor(n, max))
    ensures Start(c, s) && |c.ids| == n && c.genesis == []
    ensures forall a :: Lookup(s.balances, a) >= 0
    ensures forall i :: 0 <= i < |es| ==> EventWithin(es[i], max)
    ensures Lookup(Run(c, s, es).balances, PAYER) == Floor(n, max)
  {
    hide Step, Run, EventWithin, SubmitEach, AdvanceEach, Start;
    var tx, b := PayTx(max), map[PAYER := max as int];
    c, s := Workers(n, []), Fresh(b, Crew([Boot], n - 1, 0, Idle, Boot));
    StartFresh(n, [], b);
    var first, boot := [Advance(0), Advance(0)], AdvanceEach(1, n - 1);
    var spend := SubmitEach(0, n, tx) + AdvanceEach(0, n);
    es := first + boot + spend;
    AdvanceIsWithin(0, max);
    EachIsWithin(1, n - 1, max);
    EachIsWithin(0, n, max);
    RunAppend(c, s, first + boot, spend);
    RunAppend(c, s, first, boot);
    FirstBoots(n, b);
    var s1 := Run(c, s, first);
    AllBoot(c, s1, [Idle], n - 1, n - 1);
    assert Crew([Idle], n - 1, n - 1, Idle, Boot) == Crew([], n, 0, Debit(tx), Idle);
    assert Floor(n, max) == max - n * max;
    CrewOverdraws(c, s1.(pcs := Crew([], n, 0, Debit(tx), Idle)), [], n, max, max);
  }

  lemma AdvanceIsWithin(p: nat, max: nat)
    ensures EventWithin(Advance(p), max)
  {
  }

  // ---- and a genesis block that takes brings an account lower ----

  function Taking(taken: nat): (Address, int) {
    var d: int := taken;
    (PAYER, -d)
  }

  /** A genesis block that gives the payer one largest value and then takes. */
  function TakingBlock(max: nat, taken: nat): seq<(Address, int)> {
    [(PAYER, max), Taking(taken)]
  }

  /** After the first increment of that block. */
  function Given(n: nat, max: nat, taken: nat): State
    requires n > 0
  {
    var s := Fresh(map[PAYER := max as int], Crew([Replay([Taking(taken)])], n - 1, 0, Idle, Boot));
    s.(initLock := Some("w"), replayed := 1)
  }

  lemma GenesisGives(n: nat, max: nat, taken: nat)
    requires n > 0 && max <= MAX_INT64
    ensures var c := Workers(n, TakingBlock(max, taken));
            Run(c, Fresh(map[], Crew([Boot], n - 1, 0, Idle, Boot)), [Advance(0), Advance(0)]) == Given(n, max, taken)
  {
    hide Run;
    var block := TakingBlock(max, taken);
    var c, s := Workers(n, block), Fresh(map[], Crew([Boot], n - 1, 0, Idle, Boot));
    var s1 := s.(initLock := Some("w"), pcs := Crew([Replay(block)], n - 1, 0, Idle, Boot));
    assert s.pcs[0 := Replay(block)] == s1.pcs;
    assert Step(c, s, Advance(0)) == s1;
    assert block[1..] == [Taking(taken)];
    assert s1.pcs[0 := Replay([Taking(taken)])] == Given(n, max, taken).pcs;
    RunNothing(c, s);
    RunOneMore(c, s, [], Advance(0));
    assert [] + [Advance(0)] == [Advance(0)];
    RunOneMore(c, s, [Advance(0)], Advance(0));
    assert [Advance(0)] + [Advance(0)] == [Advance(0), Advance(0)];
  }

  /** The replay takes while every other worker is about to debit. */
  lemma GenesisTakes(n: nat, max: nat, taken: nat)
    requires n > 0 && max <= MAX_INT64 && InRange(max - taken)
    ensures var c, s, tx := Workers(n, TakingBlock(max, taken)), Given(n, max, taken), PayTx(max);
            Step(c, s.(pcs := Crew([Replay([Taking(taken)])], n - 1, 0, Credit(tx), Debit(tx))), Advance(0))
            == s.(balances := map[PAYER := max - taken], replayed := 2,
                  pcs := Crew([Replay([])], n - 1, 0, Credit(tx), Debit(tx)))
  {
    var tx := PayTx(max);
    var before := Given(n, max, taken).(pcs := Crew([Replay([Taking(taken)])], n - 1, 0, Credit(tx), Debit(tx)));
    assert [Taking(taken)][1..] == [] && before.pcs[0] == Replay([Taking(taken)]);
    assert before.pcs[0 := Replay([])] == Crew([Replay([])], n - 1, 0, Credit(tx), Debit(tx));
  }

  lemma TakenByBlock(max: nat, taken: nat)
    requires taken > 0
    ensures Taken(TakingBlock(max, taken), PAYER) == taken
  {
    var ds := TakingBlock(max, taken);
    assert ds[..1] == [ds[0]] && ds[..1][..0] == [] && ds[1] == Taking(taken);
    assert Taken(ds[..1], PAYER) == TakenBy(ds[0], PAYER);
  }

  lemma FloorBesideCrew(n: nat, max: nat)
    requires n >= 2
    ensures max - (n - 1) * max == FloorBeside(n, max) <= 0
  {
    assert (n - 1) * max == (n - 2) * max + max && (n - 2) * max >= 0;
  }

  /** From where the first increment is made: the others boot and approve, the replay takes, the others debit. */
  lemma RunFromGiven(n: nat, max: nat, taken: nat)
    requires n >= 2 && max <= MAX_INT64 && taken > 0 && InRange(FloorBeside(n, max) - taken)
    ensures var c, tx := Workers(n, TakingBlock(max, taken)), PayTx(max);
            Run(c, Given(n, max, taken),
                AdvanceEach(1, n - 1) + SubmitEach(1, n - 1, tx) + [Advance(0)] + AdvanceEach(1, n - 1)).balances
            == map[PAYER := FloorBeside(n, max) - taken]
  {
    hide Step, Run, Crew, SubmitEach, AdvanceEach, FloorBeside;
    var c, s, tx, lead := Workers(n, TakingBlock(max, taken)), Given(n, max, taken), PayTx(max), [Replay([Taking(taken)])];
    var boot, approve, debit := AdvanceEach(1, n - 1), SubmitEach(1, n - 1, tx), AdvanceEach(1, n - 1);
    FloorBesideCrew(n, max);
    RunAppend(c, s, boot + approve + [Advance(0)], debit);
    RunOneMore(c, s, boot + approve, Advance(0));
    RunAppend(c, s, boot, approve);
    AllBoot(c, s, lead, n - 1, n - 1);
    CrewEnds(lead, n - 1, Boot, Idle, Debit(tx));
    AllApprove(c, s.(pcs := Crew(lead, n - 1, 0, Debit(tx), Idle)), lead, n - 1, n - 1, tx);
    CrewEnds(lead, n - 1, Idle, Debit(tx), Credit(tx));
    GenesisTakes(n, max, taken);
    var taking := s.(balances := map[PAYER := max - taken], replayed := 2,
                     pcs := Crew([Replay([])], n - 1, 0, Credit(tx), Debit(tx)));
    AllDebit(c, taking, [Replay([])], n - 1, n - 1, max, max - taken);
  }

  /** For every number of workers from two on, every largest value and every amount taken, the bound is reached: while one
      worker replays, each of the others reads the balance that the rest of the genesis block takes away. */
  lemma GenesisOverdraftIsReached(n: nat, max: nat, taken: nat) returns (c: Config, s: State, es: seq<Event>)
    requires n >= 2 && max <= MAX_INT64 && taken > 0 && InRange(FloorBeside(n, max) - taken)
    ensures Start(c, s) && |c.ids| == n && s.balances == map[] && Taken(c.genesis, PAYER) == taken
    ensures forall i :: 0 <= i < |es| ==> EventWithin(es[i], max)
    ensures Lookup(Run(c, s, es).balances, PAYER) == FloorBeside(n, max) - taken
  {
    hide Step, Run, EventWithin, SubmitEach, AdvanceEach, Start, Taken, FloorBeside;
    var block, tx := TakingBlock(max, taken), PayTx(max);
    c, s := Workers(n, block), Fresh(map[], Crew([Boot], n - 1, 0, Idle, Boot));
    StartFresh(n, block, map[]);
    TakenByBlock(max, taken);
    var first := [Advance(0), Advance(0)];
    var rest := AdvanceEach(1, n - 1) + SubmitEach(1, n - 1, tx) + [Advance(0)] + AdvanceEach(1, n - 1);
    es := first + rest;
    AdvanceIsWithin(0, max);
    EachIsWithin(1, n - 1, max);
    RunAppend(c, s, first, rest);
    GenesisGives(n, max, taken);
    RunFromGiven(n, max, taken);
  }

  /** One worker's replay of a block that takes, from where it has the init lock. */
  lemma AloneTakes(c: Config, s: State)
    requires |c.ids| == |s.pcs| == 1 && s.pcs[0] == Replay([Taking(1)]) && s.balances == map[]
    ensures Lookup(Step(c, s, Advance(0)).balances, PAYER) == -1
  {
  }

  /** So even a worker alone goes negative when the genesis block takes. */
  lemma AloneIsTaken() returns (c: Config, s: State, es: seq<Event>)
    ensures Start(c, s) && |c.ids| == 1 && s.balances == map[] && Taken(c.genesis, PAYER) == 1
    ensures forall i, max :: 0 <= i < |es| ==> EventWithin(es[i], max)
    ensures Lookup(Run(c, s, es).balances, PAYER) == -1
  {
    hide Run, EventWithin, Start, Lookup, Increment;
    c, s, es := Workers(1, [Taking(1)]), Fresh(map[], Crew([Boot], 0, 0, Idle, Boot)), [Advance(0), Advance(0)];
    StartFresh(1, [Taking(1)], map[]);
    assert Taken([Taking(1)][..0], PAYER) == 0;
    forall max: nat { AdvanceIsWithin(0, max); }
    RunNothing(c, s);
    RunOneMore(c, s, [], Advance(0));
    assert [] + [Advance(0)] == [Advance(0)];
    AloneTakes(c, Step(c, s, Advance(0)));
    RunOneMore(c, s, [Advance(0)], Advance(0));
    assert [Advance(0)] + [Advance(0)] == es;
  }

  /** In no run of n workers, from any non-negative balances, with any genesis block that takes at most so much from an
      account, and values up to the largest, does the account fall below -(n-1) * max. */
  ghost predicate StaysAboveFloor(n: nat, max: nat, taken: nat) {
    forall c, s, es, a ::
      Start(c, s) && |c.ids| == n && Taken(c.genesis, a) <= taken
      && (forall b :: Lookup(s.balances, b) >= 0) && (forall i :: 0 <= i < |es| ==> EventWithin(es[i], max))
      ==> Lookup(Run(c, s, es).balances, a) >= Floor(n, max)
  }

  /** That holds exactly when no more than one largest value is taken, or with one worker nothing. */
  lemma StaysAboveFloorIff(n: nat, max: nat, taken: nat)
    requires n > 0 && max <= MAX_INT64 && InRange(Floor(n, max) - 1)
    ensures StaysAboveFloor(n, max, taken) <==> taken <= if n == 1 then 0 else max
  {
    hide Run, Taken, Floor, FloorBeside, EventWithin, Lookup;
    FloorBesideFloor(n, max);
    if taken <= if n == 1 then 0 else max {
      forall c, s, es, a |
        Start(c, s) && |c.ids| == n && Taken(c.genesis, a) <= taken
        && (forall b :: Lookup(s.balances, b) >= 0) && (forall i :: 0 <= i < |es| ==> EventWithin(es[i], max))
        ensures Lookup(Run(c, s, es).balances, a) >= Floor(n, max) {
        OverdraftBoundSmallGenesis(c, s, es, max, a);
      }
    } else if n == 1 {
      var c, s, es := AloneIsTaken();
      NothingIsNotNegative(s.balances);
      AloneFloor(max);
      assert Lookup(Run(c, s, es).balances, PAYER) < Floor(n, max);
    } else {
      var c, s, es := GenesisOverdraftIsReached(n, max, max + 1);
      NothingIsNotNegative(s.balances);
      assert Lookup(Run(c, s, es).balances, PAYER) < Floor(n, max);
    }
  }

  lemma AloneFloor(max: nat)
    ensures Floor(1, max) == 0
  {
  }

  lemma NothingIsNotNegative(b: Balances)
    requires b == map[]
    ensures forall a :: Lookup(b, a) >= 0
  {
  }

  // ---- negative values ----

  /** What one worker, not interrupted, makes of the balances for one transaction. */
  function Handle(b: Balances, tx: Tx): Balances {
    if !Named(tx.from) || Lookup(b, tx.from) < tx.value then b
    else IncrBy(IncrBy(b, tx.from, -tx.value), tx.to, tx.value)
  }

  /** One if Redis refuses an increment. */
  function Refusals(b: Balances, key: Address, d: int): nat {
    if Named(key) && !InRange(Lookup(b, key) + d) then 1 else 0
  }

  function HandleRefusals(b: Balances, tx: Tx): nat {
    if !Named(tx.from) || Lookup(b, tx.from) < tx.value then 0
    else Refusals(b, tx.from, -tx.value) + Refusals(IncrBy(b, tx.from, -tx.value), tx.to, tx.value)
  }

  function HandleEvents(b: Balances, p: nat, tx: Tx): seq<Event> {
    [Submit(p, tx), Advance(p)]
    + if !Named(tx.from) then []
      else if Lookup(b, tx.from) < tx.value then [Advance(p)]
      else [Advance(p), Advance(p), Advance(p)]
  }

  /** Where the balance check sends a transaction. */
  function Decided(b: Balances, tx: Tx): Pc {
    if !Named(tx.from) then Idle else if Lookup(b, tx.from) >= tx.value then Debit(tx) else Push(tx)
  }

  /** The stores beside the balances: some transactions queued, nothing else. */
  predicate Queued(s: State, t: State, txs: seq<Tx>) {
    && t.pool == s.pool + txs && t.pushed == s.pushed + txs && t.windows == s.windows && t.blocks == s.blocks
    && t.builderLock == s.builderLock && t.initLock == s.initLock
  }

  lemma QueuedTwice(s: State, t: State, u: State, txs: seq<Tx>, more: seq<Tx>)
    requires Queued(s, t, txs) && Queued(t, u, more)
    ensures Queued(s, u, txs + more)
  {
    assert s.pool + txs + more == s.pool + (txs + more) && s.pushed + txs + more == s.pushed + (txs + more);
  }

  /** What a step of the handler queues: the transaction, in its last step. */
  function QueuedBy(s: State, e: Event): seq<Tx>
    requires e.p < |s.pcs|
  {
    if e.Advance? && s.pcs[e.p].Push? then [s.pcs[e.p].tx] else []
  }

  lemma HandlerStepQueues(c: Config, s: State, e: Event)
    requires |c.ids| == |s.pcs| && Enabled(s, e)
    requires e.Submit? || (e.Advance? && (s.pcs[e.p].Query? || s.pcs[e.p].Debit? || s.pcs[e.p].Credit? || s.pcs[e.p].Push?))
    ensures Queued(s, Step(c, s, e), QueuedBy(s, e))
    ensures Step(c, s, e).pcs == s.pcs[e.p := Step(c, s, e).pcs[e.p]]
  {
    hide Increment;
  }

  /** What one step of the handler does to the balances and to the worker. */
  lemma HandlerStep(c: Config, s: State, e: Event)
    requires |c.ids| == |s.pcs| && Enabled(s, e)
    ensures var s', pc, p := Step(c, s, e), s.pcs[e.p], e.p;
            match e
            case Submit(_, tx) => s'.balances == s.balances && s'.refusals == s.refusals && s'.pcs[p] == Query(tx)
            case Advance(_) =>
              && (pc.Query? ==>
                    s'.balances == s.balances && s'.refusals == s.refusals && s'.pcs[p] == Decided(s.balances, pc.tx))
              && (pc.Debit? ==>
                    && s'.balances == IncrBy(s.balances, pc.tx.from, -pc.tx.value) && s'.pcs[p] == Credit(pc.tx)
                    && s'.refusals == s.refusals + Refusals(s.balances, pc.tx.from, -pc.tx.value))
              && (pc.Credit? ==>
                    && s'.balances == IncrBy(s.balances, pc.tx.to, pc.tx.value) && s'.pcs[p] == Push(pc.tx)
                    && s'.refusals == s.refusals + Refusals(s.balances, pc.tx.to, pc.tx.value))
              && (pc.Push? ==> s'.balances == s.balances && s'.refusals == s.refusals && s'.pcs[p] == Idle)
            case Tick(_) => true
  {
  }

  /** Submitted and checked. */
  lemma RunToDecision(c: Config, s: State, p: nat, tx: Tx)
    requires |c.ids| == |s.pcs| && p < |s.pcs| && s.pcs[p] == Idle
    ensures var t := Run(c, s, [Submit(p, tx), Advance(p)]);
            && t.balances == s.balances && t.refusals == s.refusals
            && t.pcs == s.pcs[p := Decided(s.balances, tx)] && Queued(s, t, [])
  {
    hide Run, Step, Decided, Queued;
    RunNothing(c, s);
    RunOneMore(c, s, [], Submit(p, tx));
    HandlerStep(c, s, Submit(p, tx));
    HandlerStepQueues(c, s, Submit(p, tx));
    assert [] + [Submit(p, tx)] == [Submit(p, tx)];
    RunOneMore(c, s, [Submit(p, tx)], Advance(p));
    HandlerStep(c, Run(c, s, [Submit(p, tx)]), Advance(p));
    HandlerStepQueues(c, Run(c, s, [Submit(p, tx)]), Advance(p));
    QueuedTwice(s, Step(c, s, Submit(p, tx)), Run(c, s, [Submit(p, tx)] + [Advance(p)]), [], []);
    assert [Submit(p, tx)] + [Advance(p)] == [Submit(p, tx), Advance(p)];
  }

  /** Debited, credited and queued. */
  lemma RunFromDebit(c: Config, s: State, p: nat)
    requires |c.ids| == |s.pcs| && p < |s.pcs| && s.pcs[p].Debit?
    ensures var t, tx := Run(c, s, [Advance(p), Advance(p), Advance(p)]), s.pcs[p].tx;
            var mid := IncrBy(s.balances, tx.from, -tx.value);
            && t.balances == IncrBy(mid, tx.to, tx.value) && t.pcs == s.pcs[p := Idle] && Queued(s, t, [tx])
            && t.refusals == s.refusals + Refusals(s.balances, tx.from, -tx.value) + Refusals(mid, tx.to, tx.value)
  {
    hide Run, Step, IncrBy, Refusals, Queued;
    var es: seq<Event> := [];
    RunNothing(c, s);
    assert [] + [Advance(p)] == [Advance(p)] && [Advance(p)] + [Advance(p)] == [Advance(p), Advance(p)];
    assert [Advance(p), Advance(p)] + [Advance(p)] == [Advance(p), Advance(p), Advance(p)];
    RunOneMore(c, s, es, Advance(p));
    HandlerStep(c, s, Advance(p));
    HandlerStepQueues(c, s, Advance(p));
    RunOneMore(c, s, [Advance(p)], Advance(p));
    var s1 := Run(c, s, [Advance(p)]);
    HandlerStep(c, s1, Advance(p));
    HandlerStepQueues(c, s1, Advance(p));
    RunOneMore(c, s, [Advance(p), Advance(p)], Advance(p));
    var s2 := Run(c, s, [Advance(p), Advance(p)]);
    HandlerStep(c, s2, Advance(p));
    HandlerStepQueues(c, s2, Advance(p));
    assert s1.pcs == s.pcs[p := s1.pcs[p]] && s2.pcs == s.pcs[p := s2.pcs[p]];
    assert [] + [s.pcs[p].tx] == [s.pcs[p].tx];
    QueuedTwice(s, s1, s2, [], []);
    QueuedTwice(s, s2, Step(c, s2, Advance(p)), [], [s.pcs[p].tx]);
  }

  /** Only queued. */
  lemma RunFromPush(c: Config, s: State, p: nat)
    requires |c.ids| == |s.pcs| && p < |s.pcs| && s.pcs[p].Push?
    ensures var t := Run(c, s, [Advance(p)]);
            && t.balances == s.balances && t.refusals == s.refusals
            && t.pcs == s.pcs[p := Idle] && Queued(s, t, [s.pcs[p].tx])
  {
    hide Run, Step;
    RunNothing(c, s);
    RunOneMore(c, s, [], Advance(p));
    HandlerStep(c, s, Advance(p));
    HandlerStepQueues(c, s, Advance(p));
    assert [] + [Advance(p)] == [Advance(p)];
  }

  /** A worker that handles one transaction without being interrupted has the effect of Handle; whether approved or not,
      the transaction of a named sender is queued, and nothing else in the stores or of the workers changes. */
  lemma HandleIsARun(c: Config, s: State, p: nat, tx: Tx)
    requires |c.ids| == |s.pcs| && p < |s.pcs| && s.pcs[p] == Idle
    ensures var t := Run(c, s, HandleEvents(s.balances, p, tx));
            && t.balances == Handle(s.balances, tx) && t.pcs == s.pcs
            && t.refusals == s.refusals + HandleRefusals(s.balances, tx)
            && Queued(s, t, if Named(tx.from) then [tx] else [])
  {
    hide Run, Step, IncrBy, Lookup, Refusals, Queued;
    var es := [Submit(p, tx), Advance(p)];
    var s2 := Run(c, s, es);
    RunToDecision(c, s, p, tx);
    assert s.pcs[p := Decided(s.balances, tx)][p := Idle] == s.pcs[p := Idle] == s.pcs && [] + [tx] == [tx];
    if !Named(tx.from) {
      assert es + [] == es;
    } else if Lookup(s.balances, tx.from) < tx.value {
      RunAppend(c, s, es, [Advance(p)]);
      RunFromPush(c, s2, p);
      QueuedTwice(s, s2, Run(c, s2, [Advance(p)]), [], [tx]);
    } else {
      RunAppend(c, s, es, [Advance(p), Advance(p), Advance(p)]);
      RunFromDebit(c, s2, p);
      QueuedTwice(s, s2, Run(c, s2, [Advance(p), Advance(p), Advance(p)]), [], [tx]);
    }
  }

  /** A transaction from an account to itself: the debit of a negative value is refused, the credit is not. */
  predicate SelfTakes(b: Balances, tx: Tx) {
    Lookup(b, tx.from) - tx.value > MAX_INT64 && Lookup(b, tx.from) + tx.value < 0
  }

  /** With a single worker and any non-negative balances, one transaction leaves no balance negative exactly when its value
      is not negative, or takes back no more than the receiver has.  (An empty sender is refused; an empty receiver has
      nothing taken back, and a receiver that is the sender only if it cannot be credited first.) */
  lemma AloneStaysNonNegativeIff(b: Balances, tx: Tx)
    requires forall a :: 0 <= Lookup(b, a) <= MAX_INT64
    ensures (forall a :: Lookup(Handle(b, tx), a) >= 0)
            <==> (tx.value >= 0 || tx.from == "" || tx.to == ""
                  || (if tx.to == tx.from then !SelfTakes(b, tx) else Lookup(b, tx.to) + tx.value >= 0))
  {
    var after := Handle(b, tx);
    assert 0 <= Lookup(b, tx.from) <= MAX_INT64 && 0 <= Lookup(b, tx.to) <= MAX_INT64;
    if tx.value < 0 && tx.from != "" && tx.to != "" {
      if tx.to != tx.from {
        assert Lookup(after, tx.to) == Lookup(b, tx.to) + tx.value;
      } else if SelfTakes(b, tx) {
        assert Lookup(after, tx.to) == Lookup(b, tx.to) + tx.value;
      }
    }
    assert forall a :: a != tx.from && a != tx.to ==> Lookup(after, a) == Lookup(b, a);
  }

  /** The condition matters: a negative value takes money from somebody who never sent anything. */
  lemma NegativeValueOverdraws()
    ensures var tx := Tx("t", "a", "b", -5);
            Lookup(Handle(map["a" := 0, "b" := 0], tx), "b") == -5
  {
  }
}

/** Root workers sharing one Redis (server/FPService.cpp): every Redis command is one atomic step, every handler a
    small program of such steps, and the programs of all workers interleave in any way. */
module Ledger {
  import opened Int64
  import opened Options
  import opened Sums

  type Address = string

  /** A transaction's value: any int64 that can be negated. */
  type Amount = v: int | -MAX_INT64 <= v <= MAX_INT64

  datatype Tx = Tx(id: string, from: Address, to: Address, value: Amount)

  type Balances = map<Address, int>

  // ---- INCRBY through RedisClient::IncrBy ----

  /** The client refuses an empty key. */
  predicate Named(key: Address) {
    key != ""
  }

  /** Redis refuses an increment that leaves the 64-bit range; an absent key counts as zero. */
  function IncrBy(b: Balances, key: Address, d: int): Balances {
    if Named(key) && InRange(Lookup(b, key) + d) then b[key := Lookup(b, key) + d] else b
  }

  // ---- where a worker is ----

  datatype Pc =
    | Boot                              // about to try the init lock
    | Replay(rest: seq<(Address, int)>) // initBalance, the increments still to make
    | Idle
    | Query(tx: Tx)                     // handleTransaction: about to GET the sender's balance
    | Debit(tx: Tx)
    | Credit(tx: Tx)
    | Push(tx: Tx)                      // about to RPUSH the transaction, approved or not
    | Drain                             // holds the builder lock: about to LRANGE the pool
    | Clear(txs: seq<Tx>, read: nat)    // about to DEL the pool; read: pushes made when LRANGE ran
    | Store(txs: seq<Tx>)               // about to store the block
    | AskLock                           // releaseLock: about to GET the lock
    | DropLock                          // about to DEL it

  /** A drain of the pool: how many pushes had been made when it was read, and when it was deleted. */
  datatype Window = Window(read: nat, cleared: nat)

  /** The store and the workers; then, never read by a step, what happened: all pushes, all drains, the genesis
      increments made, the amounts transactions credited to the empty address, those Redis refused as out of range, and
      how many increments it refused. */
  datatype State = State(
    balances: Balances, pool: seq<Tx>, builderLock: Option<string>, initLock: Option<string>, blocks: seq<seq<Tx>>,
    pcs: seq<Pc>,
    pushed: seq<Tx>, windows: seq<Window>, replayed: nat, burned: int, refused: int, refusals: nat)

  /** Worker ids, one per worker, and the increments a replay of the stored chain makes. */
  datatype Config = Config(ids: seq<string>, genesis: seq<(Address, int)>)

  datatype Event =
    | Submit(p: nat, tx: Tx)  // a transaction arrives at an idle worker
    | Tick(p: nat)            // the block timer fires at an idle worker
    | Advance(p: nat)         // a busy worker makes its next step

  predicate Enabled(s: State, e: Event) {
    e.p < |s.pcs| && (e.Advance? <==> s.pcs[e.p] != Idle)
  }

  function Goto(s: State, p: nat, pc: Pc): State
    requires p < |s.pcs|
  {
    s.(pcs := s.pcs[p := pc])
  }

  /** An INCRBY, with the amount filed under burned or refused when it does not happen: burned grows by what is credited
      to the empty address and falls by what is debited there, or credited there with a negative value. */
  function Increment(s: State, key: Address, d: int): (s': State)
    ensures s' == s.(balances := s'.balances, burned := s'.burned, refused := s'.refused, refusals := s'.refusals)
  {
    if !Named(key) then s.(burned := s.burned + d)
    else if !InRange(Lookup(s.balances, key) + d) then s.(refused := s.refused + d, refusals := s.refusals + 1)
    else s.(balances := IncrBy(s.balances, key, d))
  }

  /** The next increment of the replay; one on the empty address does nothing and is nobody's money. */
  function Replayed(s: State, key: Address, d: int): State {
    (if Named(key) then Increment(s, key, d) else s).(replayed := s.replayed + 1)
  }

  /** One atomic step; an event that cannot happen changes nothing. */
  function Step(c: Config, s: State, e: Event): (s': State)
    requires |c.ids| == |s.pcs|
    ensures |s'.pcs| == |s.pcs|
  {
    if !Enabled(s, e) then s else
    var p := e.p;
    match e
    case Submit(_, tx) => Goto(s, p, Query(tx))
    case Tick(_) =>  // SET NX
      if s.builderLock.None? then Goto(s.(builderLock := Some(c.ids[p])), p, Drain) else s
    case Advance(_) =>
      match s.pcs[p]
      case Boot =>  // SET NX
        if s.initLock.None? then Goto(s.(initLock := Some(c.ids[p])), p, Replay(c.genesis)) else Goto(s, p, Idle)
      case Replay(rest) =>
        if rest == [] then Goto(s, p, Idle)
        else Goto(Replayed(s, rest[0].0, rest[0].1), p, Replay(rest[1..]))
      case Idle => s
      case Query(tx) =>  // an absent key reads as zero, an empty one is refused
        if !Named(tx.from) then Goto(s, p, Idle)
        else if Lookup(s.balances, tx.from) >= tx.value then Goto(s, p, Debit(tx))
        else Goto(s, p, Push(tx))
      case Debit(tx) => Goto(Increment(s, tx.from, -tx.value), p, Credit(tx))
      case Credit(tx) => Goto(Increment(s, tx.to, tx.value), p, Push(tx))
      case Push(tx) => Goto(s.(pool := s.pool + [tx], pushed := s.pushed + [tx]), p, Idle)
      case Drain => Goto(s, p, Clear(s.pool, |s.pushed|))
      case Clear(txs, read) =>
        Goto(s.(pool := [], windows := s.windows + [Window(read, |s.pushed|)]), p, if txs == [] then AskLock else Store(txs))
      case Store(txs) => Goto(s.(blocks := s.blocks + [txs]), p, AskLock)
      case AskLock =>
        if s.builderLock.None? || s.builderLock.value == "" || s.builderLock.value == c.ids[p]
        then Goto(s, p, DropLock) else Goto(s, p, Idle)
      case DropLock => Goto(s.(builderLock := None), p, Idle)
  }

  ghost predicate Start(c: Config, s: State) {
    && |c.ids| == |s.pcs|
    && (forall p :: 0 <= p < |s.pcs| ==> s.pcs[p] == Boot)
    && s.pool == s.pushed == [] && s.blocks == [] && s.windows == []
    && s.builderLock.None? && s.initLock.None?
    && s.replayed == 0 && s.burned == 0 && s.refused == 0 && s.refusals == 0
  }

  function Run(c: Config, s: State, es: seq<Event>): (s': State)
    requires |c.ids| == |s.pcs|
    ensures |s'.pcs| == |s.pcs|
  {
    if es == [] then s else Step(c, Run(c, s, es[..|es| - 1]), es[|es| - 1])
  }

  // ---- sums over workers ----

  ghost function SumBy(pcs: seq<Pc>, f: Pc -> int): int {
    if pcs == [] then 0 else SumBy(pcs[..|pcs| - 1], f) + f(pcs[|pcs| - 1])
  }

  lemma {:induction false} SumByUpdate(pcs: seq<Pc>, p: nat, pc: Pc, f: Pc -> int)
    requires p < |pcs|
    ensures SumBy(pcs[p := pc], f) == SumBy(pcs, f) - f(pcs[p]) + f(pc)
  {
    var n := |pcs| - 1;
    if p < n {
      SumByUpdate(pcs[..n], p, pc, f);
      assert pcs[p := pc][..n] == pcs[..n][p := pc];
    } else {
      assert pcs[p := pc][..n] == pcs[..n];
    }
  }

  /** A sum of what no worker contributes at the start. */
  lemma {:induction false} SumByAtBoot(pcs: seq<Pc>, f: Pc -> int)
    requires f(Boot) == 0 && forall p :: 0 <= p < |pcs| ==> pcs[p] == Boot
    ensures SumBy(pcs, f) == 0
  {
    if pcs != [] {
      SumByAtBoot(pcs[..|pcs| - 1], f);
    }
  }

  // ---- runs ----

  lemma DisabledChangesNothing(c: Config, s: State, e: Event)
    requires |c.ids| == |s.pcs| && !Enabled(s, e)
    ensures Step(c, s, e) == s
  {
  }

  lemma RunNothing(c: Config, s: State)
    requires |c.ids| == |s.pcs|
    ensures Run(c, s, []) == s
  {
  }

  lemma RunOneMore(c: Config, s: State, es: seq<Event>, e: Event)
    requires |c.ids| == |s.pcs|
    ensures Run(c, s, es + [e]) == Step(c, Run(c, s, es), e)
  {
  }

  lemma {:induction false} RunAppend(c: Config, s: State, es: seq<Event>, more: seq<Event>)
    requires |c.ids| == |s.pcs|
    ensures Run(c, s, es + more) == Run(c, Run(c, s, es), more)
  {
    hide Step;
    if more == [] {
      assert es + more == es;
    } else {
      var n := |more| - 1;
      RunAppend(c, s, es, more[..n]);
      assert (es + more)[..|es + more| - 1] == es + more[..n];
    }
  }
}

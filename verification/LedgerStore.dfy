/** The ledger runs on the sharded cache: each of its steps is one Redis command, and the worker goes on as the reply
    tells it. */
module LedgerStore {
  import opened Bytes
  import opened Options
  import opened Sums
  import L = Ledger
  import R = RedisCaches

  // ---- how the ledger is kept in Redis ----

  /** How strings and transactions are written as bytes, and the keys that hold no balance. */
  datatype Layout = Layout(text: string -> bytes, json: L.Tx -> bytes, parse: bytes -> L.Tx,
                           pool: bytes, builder: bytes, init: bytes)

  /** Nothing is lost in writing, and the control keys are no account's. */
  ghost predicate Faithful(y: Layout) {
    && (forall a, b :: y.text(a) == y.text(b) ==> a == b)
    && y.text("") == []
    && (forall tx :: y.parse(y.json(tx)) == tx)
    && y.pool != [] && y.builder != [] && y.init != []
    && y.pool != y.builder && y.builder != y.init && y.init != y.pool
    && (forall a :: y.text(a) != y.pool && y.text(a) != y.builder && y.text(a) != y.init)
  }

  function Jsons(y: Layout, txs: seq<L.Tx>): (r: seq<bytes>)
    ensures |r| == |txs|
  {
    seq(|txs|, i requires 0 <= i < |txs| => y.json(txs[i]))
  }

  function Parsed(y: Layout, items: seq<bytes>): (r: seq<L.Tx>)
    ensures |r| == |items|
  {
    seq(|items|, i requires 0 <= i < |items| => y.parse(items[i]))
  }

  function BalanceEntry(b: L.Balances, a: L.Address): Option<R.Entry> {
    if a in b then Some(R.Str(R.Render(b[a]))) else None
  }

  function LockEntry(y: Layout, lock: Option<string>): Option<R.Entry> {
    if lock.Some? then Some(R.Str(y.text(lock.value))) else None
  }

  function PoolEntry(y: Layout, pool: seq<L.Tx>): Option<R.Entry> {
    if pool == [] then None else Some(R.List(Jsons(y, pool)))
  }

  ghost predicate HoldsBalances(y: Layout, store: R.Store, b: L.Balances) {
    forall a :: a != "" ==> R.At(store, y.text(a)) == BalanceEntry(b, a)
  }

  /** The store holds the shared part of the state. */
  ghost predicate Represents(y: Layout, store: R.Store, s: L.State) {
    && HoldsBalances(y, store, s.balances)
    && R.At(store, y.pool) == PoolEntry(y, s.pool)
    && R.At(store, y.builder) == LockEntry(y, s.builderLock)
    && R.At(store, y.init) == LockEntry(y, s.initLock)
  }

  // ---- the handlers as programs over commands and replies ----

  /** The command a worker sends to the cache for its next step; none when the step needs no cache. */
  function CommandOf(y: Layout, id: string, e: L.Event, pc: L.Pc): Option<R.Command> {
    match e
    case Submit(_, _) => None
    case Tick(_) => Some(R.SetNX(y.builder, y.text(id)))
    case Advance(_) =>
      match pc
      case Boot => Some(R.SetNX(y.init, y.text(id)))
      case Replay(rest) => if rest == [] then None else Some(R.IncrBy(y.text(rest[0].0), rest[0].1))
      case Query(tx) => Some(R.Get(y.text(tx.from)))
      case Debit(tx) => Some(R.IncrBy(y.text(tx.from), -tx.value))
      case Credit(tx) => Some(R.IncrBy(y.text(tx.to), tx.value))
      case Push(tx) => Some(R.RPush(y.pool, [y.json(tx)]))
      case Drain => Some(R.LRangeAll(y.pool))
      case Clear(_, _) => Some(R.Delete(y.pool))
      case AskLock => Some(R.Get(y.builder))
      case DropLock => Some(R.Delete(y.builder))
      case Idle => None
      case Store(_) => None
  }

  /** atoll of what GET left in the string: nothing reads as zero. */
  function Atoll(text: Option<bytes>): int {
    if text.None? then 0 else var n := R.ParseInt(text.value); if n.Some? then n.value else 0
  }

  /** Where a worker goes, knowing only its own id, where it is and the reply.  read is the history kept in Clear. */
  function NextPc(y: Layout, id: string, genesis: seq<(L.Address, int)>, e: L.Event, pc: L.Pc, r: R.Reply, read: nat): L.Pc {
    match e
    case Submit(_, tx) => L.Query(tx)
    case Tick(_) => if r.status == R.Ok then L.Drain else pc
    case Advance(_) =>
      match pc
      case Boot => if r.status == R.Ok then L.Replay(genesis) else L.Idle
      case Replay(rest) => if rest == [] then L.Idle else L.Replay(rest[1..])
      case Query(tx) =>
        if r.status != R.Ok then L.Idle else if Atoll(r.text) >= tx.value then L.Debit(tx) else L.Push(tx)
      case Debit(tx) => L.Credit(tx)
      case Credit(tx) => L.Push(tx)
      case Push(_) => L.Idle
      case Drain => if r.status == R.Ok then L.Clear(Parsed(y, r.items), read) else L.AskLock
      case Clear(txs, _) => if r.status != R.Ok || txs == [] then L.AskLock else L.Store(txs)
      case AskLock =>
        var owner := if r.text.Some? then r.text.value else [];
        if owner == [] || owner == y.text(id) then L.DropLock else L.Idle
      case DropLock => L.Idle
      case Idle => L.Idle
      case Store(_) => L.AskLock
  }

  /** Running the command of a step, if it has one. */
  function Exchange(store: R.Store, command: Option<R.Command>): (R.Store, R.Reply) {
    if command.None? then (store, R.Just(R.Ok)) else R.Exec(store, command.value)
  }

  // ---- one step ----

  /** An exec touches the entry of its key only. */
  lemma ExecAt(store: R.Store, command: R.Command, k: R.Key)
    ensures var (e, r) := R.ExecEntry(R.At(store, command.key), command);
            && R.Exec(store, command).1 == r
            && R.At(R.Exec(store, command).0, k) == if k == command.key then e else R.At(store, k)
  {
    hide R.ExecEntry;
  }

  /** A command on a control key leaves the balances alone. */
  lemma BalancesUntouched(y: Layout, store: R.Store, b: L.Balances, command: R.Command)
    requires Faithful(y) && HoldsBalances(y, store, b)
    requires command.key == y.pool || command.key == y.builder || command.key == y.init
    ensures HoldsBalances(y, R.Exec(store, command).0, b)
  {
    hide R.Exec, R.ExecEntry, R.At, BalanceEntry;
    forall a | a != "" ensures R.At(R.Exec(store, command).0, y.text(a)) == BalanceEntry(b, a) {
      ExecAt(store, command, y.text(a));
    }
  }

  lemma IncrByOnBalance(b: L.Balances, a: L.Address, key: R.Key, d: int)
    requires a != "" && key != []
    ensures R.ExecEntry(BalanceEntry(b, a), R.IncrBy(key, d)).0 == BalanceEntry(L.IncrBy(b, a, d), a)
  {
    hide R.Render, R.ParseInt;
    R.RenderedReadsBack(Lookup(b, a));
  }

  lemma IncrByElsewhere(b: L.Balances, a: L.Address, d: int, other: L.Address)
    requires other != a
    ensures BalanceEntry(L.IncrBy(b, a, d), other) == BalanceEntry(b, other)
  {
  }

  /** INCRBY on an account is the ledger's increment. */
  lemma IncrByHeld(y: Layout, store: R.Store, b: L.Balances, a: L.Address, d: int)
    requires Faithful(y) && HoldsBalances(y, store, b)
    ensures HoldsBalances(y, R.Exec(store, R.IncrBy(y.text(a), d)).0, L.IncrBy(b, a, d))
  {
    hide R.Exec, R.ExecEntry, R.At, BalanceEntry, L.IncrBy;
    var command := R.IncrBy(y.text(a), d);
    forall other | other != ""
      ensures R.At(R.Exec(store, command).0, y.text(other)) == BalanceEntry(L.IncrBy(b, a, d), other) {
      ExecAt(store, command, y.text(other));
      if other == a {
        IncrByOnBalance(b, a, y.text(a), d);
      } else {
        IncrByElsewhere(b, a, d, other);
      }
    }
  }

  /** What a command on a control key does to the store as the ledger sees it. */
  lemma ControlExec(y: Layout, store: R.Store, s: L.State, command: R.Command)
    requires Faithful(y) && Represents(y, store, s)
    requires command.key == y.pool || command.key == y.builder || command.key == y.init
    ensures var (after, r) := R.Exec(store, command);
            var (entry, reply) := R.ExecEntry(R.At(store, command.key), command);
            && r == reply
            && HoldsBalances(y, after, s.balances)
            && R.At(after, y.pool) == (if command.key == y.pool then entry else PoolEntry(y, s.pool))
            && R.At(after, y.builder) == (if command.key == y.builder then entry else LockEntry(y, s.builderLock))
            && R.At(after, y.init) == (if command.key == y.init then entry else LockEntry(y, s.initLock))
  {
    hide R.Exec, R.ExecEntry, R.At, HoldsBalances, PoolEntry, LockEntry;
    BalancesUntouched(y, store, s.balances, command);
    ExecAt(store, command, y.pool);
    ExecAt(store, command, y.builder);
    ExecAt(store, command, y.init);
  }

  /** A step is its command: the store after the command holds the state after the step, and the reply alone sends the
      worker where the step sends it. */
  ghost predicate IsCommand(y: Layout, c: L.Config, store: R.Store, s: L.State, e: L.Event)
    requires |c.ids| == |s.pcs| && L.Enabled(s, e)
  {
    var id, pc, s' := c.ids[e.p], s.pcs[e.p], L.Step(c, s, e);
    var (after, r) := Exchange(store, CommandOf(y, id, e, pc));
    && Represents(y, after, s')
    && s'.pcs == s.pcs[e.p := NextPc(y, id, c.genesis, e, pc, r, |s.pushed|)]
  }

  lemma TickStep(y: Layout, c: L.Config, store: R.Store, s: L.State, p: nat)
    requires Faithful(y) && Represents(y, store, s) && |c.ids| == |s.pcs| && L.Enabled(s, L.Tick(p))
    ensures IsCommand(y, c, store, s, L.Tick(p))
  {
    hide R.Exec, R.At, HoldsBalances, L.Increment, PoolEntry;
    ControlExec(y, store, s, R.SetNX(y.builder, y.text(c.ids[p])));
  }

  lemma BootStep(y: Layout, c: L.Config, store: R.Store, s: L.State, p: nat)
    requires Faithful(y) && Represents(y, store, s) && |c.ids| == |s.pcs| && p < |s.pcs| && s.pcs[p].Boot?
    ensures IsCommand(y, c, store, s, L.Advance(p))
  {
    hide R.Exec, R.At, HoldsBalances, L.Increment, PoolEntry;
    ControlExec(y, store, s, R.SetNX(y.init, y.text(c.ids[p])));
  }

  lemma AskLockStep(y: Layout, c: L.Config, store: R.Store, s: L.State, p: nat)
    requires Faithful(y) && Represents(y, store, s) && |c.ids| == |s.pcs| && p < |s.pcs| && s.pcs[p].AskLock?
    ensures IsCommand(y, c, store, s, L.Advance(p))
  {
    hide R.Exec, R.At, HoldsBalances, L.Increment, PoolEntry;
    ControlExec(y, store, s, R.Get(y.builder));
  }

  lemma DropLockStep(y: Layout, c: L.Config, store: R.Store, s: L.State, p: nat)
    requires Faithful(y) && Represents(y, store, s) && |c.ids| == |s.pcs| && p < |s.pcs| && s.pcs[p].DropLock?
    ensures IsCommand(y, c, store, s, L.Advance(p))
  {
    hide R.Exec, R.At, HoldsBalances, L.Increment, PoolEntry;
    ControlExec(y, store, s, R.Delete(y.builder));
  }

  lemma PushStep(y: Layout, c: L.Config, store: R.Store, s: L.State, p: nat)
    requires Faithful(y) && Represents(y, store, s) && |c.ids| == |s.pcs| && p < |s.pcs| && s.pcs[p].Push?
    ensures IsCommand(y, c, store, s, L.Advance(p))
  {
    hide R.Exec, R.At, HoldsBalances, L.Increment, LockEntry;
    var tx := s.pcs[p].tx;
    ControlExec(y, store, s, R.RPush(y.pool, [y.json(tx)]));
    assert Jsons(y, s.pool) + [y.json(tx)] == Jsons(y, s.pool + [tx]);
    assert [y.json(tx)] == Jsons(y, [tx]) && [] + [tx] == [tx];
  }

  lemma DrainStep(y: Layout, c: L.Config, store: R.Store, s: L.State, p: nat)
    requires Faithful(y) && Represents(y, store, s) && |c.ids| == |s.pcs| && p < |s.pcs| && s.pcs[p].Drain?
    ensures IsCommand(y, c, store, s, L.Advance(p))
  {
    hide R.Exec, R.At, HoldsBalances, L.Increment, LockEntry;
    ControlExec(y, store, s, R.LRangeAll(y.pool));
    assert Parsed(y, Jsons(y, s.pool)) == s.pool && Parsed(y, []) == [];
  }

  lemma ClearStep(y: Layout, c: L.Config, store: R.Store, s: L.State, p: nat)
    requires Faithful(y) && Represents(y, store, s) && |c.ids| == |s.pcs| && p < |s.pcs| && s.pcs[p].Clear?
    ensures IsCommand(y, c, store, s, L.Advance(p))
  {
    hide R.Exec, R.At, HoldsBalances, L.Increment, LockEntry;
    ControlExec(y, store, s, R.Delete(y.pool));
  }

  /** An INCRBY of a handler: the account and the amount. */
  function Increment(pc: L.Pc): Option<(L.Address, int)> {
    match pc
    case Replay(rest) => if rest == [] then None else Some(rest[0])
    case Debit(tx) => Some((tx.from, -tx.value))
    case Credit(tx) => Some((tx.to, tx.value))
    case _ => None
  }

  /** The ledger's side of an INCRBY: the increment, and nothing else that is shared; no reply is looked at. */
  lemma IncrementStep(y: Layout, c: L.Config, s: L.State, p: nat, r: R.Reply)
    requires |c.ids| == |s.pcs| && p < |s.pcs| && Increment(s.pcs[p]).Some?
    ensures var s', (a, d) := L.Step(c, s, L.Advance(p)), Increment(s.pcs[p]).value;
            && s'.balances == L.IncrBy(s.balances, a, d)
            && s'.pool == s.pool && s'.builderLock == s.builderLock && s'.initLock == s.initLock
            && s'.pcs == s.pcs[p := NextPc(y, c.ids[p], c.genesis, L.Advance(p), s.pcs[p], r, |s.pushed|)]
            && CommandOf(y, c.ids[p], L.Advance(p), s.pcs[p]) == Some(R.IncrBy(y.text(a), d))
  {
  }

  /** The store's side: the balances take the increment, the control keys stay. */
  lemma IncrByExec(y: Layout, store: R.Store, s: L.State, a: L.Address, d: int)
    requires Faithful(y) && Represents(y, store, s)
    ensures Represents(y, R.Exec(store, R.IncrBy(y.text(a), d)).0, s.(balances := L.IncrBy(s.balances, a, d)))
  {
    hide R.Exec, R.ExecEntry, R.At, HoldsBalances, LockEntry, PoolEntry, L.IncrBy;
    IncrByHeld(y, store, s.balances, a, d);
    ExecAt(store, R.IncrBy(y.text(a), d), y.pool);
    ExecAt(store, R.IncrBy(y.text(a), d), y.builder);
    ExecAt(store, R.IncrBy(y.text(a), d), y.init);
  }

  lemma MoneyStep(y: Layout, c: L.Config, store: R.Store, s: L.State, p: nat)
    requires Faithful(y) && Represents(y, store, s) && |c.ids| == |s.pcs| && p < |s.pcs| && Increment(s.pcs[p]).Some?
    ensures IsCommand(y, c, store, s, L.Advance(p))
  {
    hide R.Exec, R.At, HoldsBalances, LockEntry, PoolEntry, L.Step, L.IncrBy, CommandOf, NextPc, Increment, Faithful;
    var (a, d) := Increment(s.pcs[p]).value;
    IncrByExec(y, store, s, a, d);
    IncrementStep(y, c, s, p, R.Exec(store, R.IncrBy(y.text(a), d)).1);
  }

  lemma GetChangesNothing(store: R.Store, key: R.Key)
    ensures R.Exec(store, R.Get(key)).0 == store
  {
  }

  /** The balance check: what GET says, read by atoll, is the balance. */
  lemma BalanceIsRead(b: L.Balances, a: L.Address, key: R.Key)
    requires (a == "") == (key == [])
    ensures var (e, r) := R.ExecEntry(BalanceEntry(b, a), R.Get(key));
            if a == "" then r.status != R.Ok else r.status == R.Ok && Atoll(r.text) == Lookup(b, a)
  {
    hide R.Render, R.ParseInt;
    R.RenderedReadsBack(Lookup(b, a));
  }

  lemma QueryStep(y: Layout, c: L.Config, store: R.Store, s: L.State, p: nat)
    requires Faithful(y) && Represents(y, store, s) && |c.ids| == |s.pcs| && p < |s.pcs| && s.pcs[p].Query?
    ensures IsCommand(y, c, store, s, L.Advance(p))
  {
    hide R.Exec, R.ExecEntry, BalanceEntry, Atoll, LockEntry, PoolEntry, L.Increment;
    var from := s.pcs[p].tx.from;
    GetChangesNothing(store, y.text(from));
    ExecAt(store, R.Get(y.text(from)), y.text(from));
    BalanceIsRead(s.balances, from, y.text(from));
    if from == "" {
      EmptyKeyIsRefused(store);
    }
  }

  lemma EmptyKeyIsRefused(store: R.Store)
    ensures R.Exec(store, R.Get([])).1.status != R.Ok
  {
  }

  /** Submit, the end of the replay and storing the block, which goes to another database, need no command. */
  lemma QuietStep(y: Layout, c: L.Config, store: R.Store, s: L.State, e: L.Event)
    requires Represents(y, store, s) && |c.ids| == |s.pcs| && L.Enabled(s, e)
    requires CommandOf(y, c.ids[e.p], e, s.pcs[e.p]).None?
    ensures IsCommand(y, c, store, s, e)
  {
    hide HoldsBalances, LockEntry, PoolEntry, R.At, L.Increment;
  }

  /** Every step of the ledger is at most one command on the store, and a worker needs nothing but the reply. */
  lemma StepIsCommand(y: Layout, c: L.Config, store: R.Store, s: L.State, e: L.Event)
    requires Faithful(y) && Represents(y, store, s) && |c.ids| == |s.pcs| && L.Enabled(s, e)
    ensures IsCommand(y, c, store, s, e)
  {
    hide Faithful, Represents, IsCommand;
    var pc := s.pcs[e.p];
    if CommandOf(y, c.ids[e.p], e, pc).None? {
      QuietStep(y, c, store, s, e);
    } else if e.Tick? {
      TickStep(y, c, store, s, e.p);
    } else if pc.Boot? {
      BootStep(y, c, store, s, e.p);
    } else if pc.AskLock? {
      AskLockStep(y, c, store, s, e.p);
    } else if pc.DropLock? {
      DropLockStep(y, c, store, s, e.p);
    } else if pc.Query? {
      QueryStep(y, c, store, s, e.p);
    } else if pc.Push? {
      PushStep(y, c, store, s, e.p);
    } else if pc.Drain? {
      DrainStep(y, c, store, s, e.p);
    } else if pc.Clear? {
      ClearStep(y, c, store, s, e.p);
    } else {
      MoneyStep(y, c, store, s, e.p);
    }
  }

  // ---- whole runs, on any number of shards ----

  /** The commands all workers together send in a run. */
  function Commands(y: Layout, c: L.Config, s: L.State, es: seq<L.Event>): seq<R.Command>
    requires |c.ids| == |s.pcs|
  {
    if es == [] then [] else
    var before, e := L.Run(c, s, es[..|es| - 1]), es[|es| - 1];
    var command := if L.Enabled(before, e) then CommandOf(y, c.ids[e.p], e, before.pcs[e.p]) else None;
    Commands(y, c, s, es[..|es| - 1]) + if command.Some? then [command.value] else []
  }

  lemma OneMoreCommand(store: R.Store, cs: seq<R.Command>, command: Option<R.Command>)
    ensures R.RunFlat(store, cs + if command.Some? then [command.value] else []).0
            == Exchange(R.RunFlat(store, cs).0, command).0
  {
    hide R.Exec;
    if command.Some? {
      assert (cs + [command.value])[..|cs|] == cs;
    } else {
      assert cs + [] == cs;
    }
  }

  lemma {:induction false} RunIsCommands(y: Layout, c: L.Config, store: R.Store, s: L.State, es: seq<L.Event>)
    requires Faithful(y) && Represents(y, store, s) && |c.ids| == |s.pcs|
    ensures Represents(y, R.RunFlat(store, Commands(y, c, s, es)).0, L.Run(c, s, es))
  {
    hide Represents, L.Step, R.Exec;
    if es != [] {
      var init, e := es[..|es| - 1], es[|es| - 1];
      RunIsCommands(y, c, store, s, init);
      var before, at := L.Run(c, s, init), R.RunFlat(store, Commands(y, c, s, init)).0;
      if L.Enabled(before, e) {
        StepIsCommand(y, c, at, before, e);
        OneMoreCommand(store, Commands(y, c, s, init), CommandOf(y, c.ids[e.p], e, before.pcs[e.p]));
      } else {
        L.DisabledChangesNothing(c, before, e);
        OneMoreCommand(store, Commands(y, c, s, init), None);
      }
    }
  }

  /** Every run of the ledger happens on a pool of any size: sending the run's commands, each to the shard of its key,
      leaves stores that together hold the balances, the pool and the locks of the ledger's state. */
  lemma LedgerRunsOnShards(y: Layout, c: L.Config, stores: seq<R.Store>, s: L.State, es: seq<L.Event>)
    requires Faithful(y) && |c.ids| == |s.pcs|
    requires |stores| > 0 && R.Placed(stores) && Represents(y, R.Flat(stores), s)
    ensures var after := R.RunSharded(stores, Commands(y, c, s, es)).0;
            R.Placed(after) && Represents(y, R.Flat(after), L.Run(c, s, es))
  {
    hide Represents, Faithful, R.Placed, R.Flat, R.RunFlat, R.RunSharded, L.Run, Commands;
    RunIsCommands(y, c, R.Flat(stores), s, es);
    R.ShardedEqualsFlat(stores, Commands(y, c, s, es));
  }
}

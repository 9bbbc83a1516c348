/** Blocks applied to the balances: the netting of updateBalance and the two walks along the chain (server/FPService.cpp).
    What netting and one-by-one application do when increments are refused, and to the total, is in module Netting. */
module Blocks {
  import opened Int64
  import opened Options
  import opened Sums
  import opened Ledger

  datatype Block = Block(id: string, next: string, txs: seq<Tx>)

  // ---- one block ----

  /** What a list of transactions changes at one address. */
  function Net(txs: seq<Tx>, a: Address): int {
    if txs == [] then 0 else
    var tx := txs[|txs| - 1];
    Net(txs[..|txs| - 1], a) - (if tx.from == a then tx.value else 0) + (if tx.to == a then tx.value else 0)
  }

  function Parties(txs: seq<Tx>): set<Address> {
    (set i | 0 <= i < |txs| :: txs[i].from) + (set i | 0 <= i < |txs| :: txs[i].to)
  }

  /** The increment of one address happens: it has a name and the sum is in range. */
  predicate Moves(b: Balances, txs: seq<Tx>, a: Address) {
    a in Parties(txs) && Named(a) && InRange(Lookup(b, a) + Net(txs, a))
  }

  /** The entry of one address. */
  function At(b: Balances, a: Address): Option<int> {
    if a in b then Some(b[a]) else None
  }

  lemma SameEntriesSameBalances(b: Balances, b': Balances)
    requires forall a :: At(b, a) == At(b', a)
    ensures b == b'
  {
    forall a ensures a in b <==> a in b' {
      assert At(b, a) == At(b', a);
    }
    forall a | a in b ensures b[a] == b'[a] {
      assert At(b, a) == At(b', a);
    }
  }

  /** The entry of one address with its net change applied once. */
  function NettedAt(b: Balances, txs: seq<Tx>, a: Address): Option<int> {
    if Moves(b, txs, a) then Some(Lookup(b, a) + Net(txs, a)) else At(b, a)
  }

  /** The balances with every party's net change applied once. */
  function Netted(b: Balances, txs: seq<Tx>): Balances {
    map a | a in b.Keys + Parties(txs) && NettedAt(b, txs, a).Some? :: NettedAt(b, txs, a).value
  }

  lemma NettedEntry(b: Balances, txs: seq<Tx>, a: Address)
    ensures At(Netted(b, txs), a) == NettedAt(b, txs, a)
  {
  }

  lemma IncrByEntry(b: Balances, key: Address, d: int, a: Address)
    ensures At(IncrBy(b, key, d), a) ==
            if a == key && Named(key) && InRange(Lookup(b, key) + d) then Some(Lookup(b, key) + d) else At(b, a)
    ensures Lookup(b, a) == match At(b, a) case Some(v) => v case None => 0
  {
  }

  /** The transactions applied one by one, debit then credit. */
  function Sequential(b: Balances, txs: seq<Tx>): Balances {
    if txs == [] then b else
    var before, tx := Sequential(b, txs[..|txs| - 1]), txs[|txs| - 1];
    IncrBy(IncrBy(before, tx.from, -tx.value), tx.to, tx.value)
  }

  class Cache {
    var balances: Balances

    constructor (balances: Balances)
      ensures this.balances == balances
    {
      this.balances := balances;
    }

    method Increment(key: Address, d: int)
      modifies this
      ensures balances == IncrBy(old(balances), key, d)
    {
      balances := IncrBy(balances, key, d);
    }
  }

  lemma PartiesNext(txs: seq<Tx>, i: nat)
    requires i < |txs|
    ensures Parties(txs[..i + 1]) == Parties(txs[..i]) + {txs[i].from, txs[i].to}
    ensures forall a :: Net(txs[..i + 1], a) == Net(txs[..i], a) - (if txs[i].from == a then txs[i].value else 0)
                                                + (if txs[i].to == a then txs[i].value else 0)
  {
    assert txs[..i + 1][..i] == txs[..i];
    var before, now := txs[..i], txs[..i + 1];
    forall a | a in Parties(now) ensures a in Parties(before) + {txs[i].from, txs[i].to} {
      var j :| 0 <= j < |now| && (now[j].from == a || now[j].to == a);
      assert j < i ==> before[j] == now[j];
    }
    forall a | a in Parties(before) + {txs[i].from, txs[i].to} ensures a in Parties(now) {
      if a in Parties(before) {
        var j :| 0 <= j < |before| && (before[j].from == a || before[j].to == a);
        assert now[j] == before[j];
      } else {
        assert now[i].from == a || now[i].to == a;
      }
    }
  }

  lemma {:induction false} NetOfStranger(txs: seq<Tx>, a: Address)
    requires a !in Parties(txs)
    ensures Net(txs, a) == 0
  {
    if txs != [] {
      PartiesNext(txs, |txs| - 1);
      assert txs[..|txs|] == txs;
      NetOfStranger(txs[..|txs| - 1], a);
    }
  }

  /** balanceMap holds the net change of every party of the transactions. */
  ghost predicate IsNet(balanceMap: map<Address, int>, txs: seq<Tx>) {
    balanceMap.Keys == Parties(txs) && forall a :: a in balanceMap ==> balanceMap[a] == Net(txs, a)
  }

  function Booked(balanceMap: map<Address, int>, tx: Tx): map<Address, int> {
    var debited := balanceMap[tx.from := Lookup(balanceMap, tx.from) - tx.value];
    debited[tx.to := Lookup(debited, tx.to) + tx.value]
  }

  lemma BookedIsNet(balanceMap: map<Address, int>, txs: seq<Tx>, i: nat)
    requires i < |txs| && IsNet(balanceMap, txs[..i])
    ensures IsNet(Booked(balanceMap, txs[i]), txs[..i + 1])
  {
    hide Net, Parties;
    var tx := txs[i];
    PartiesNext(txs, i);
    if tx.from !in balanceMap {
      NetOfStranger(txs[..i], tx.from);
    }
    if tx.to !in balanceMap {
      NetOfStranger(txs[..i], tx.to);
    }
  }

  lemma NothingBooked()
    ensures IsNet(map[], [])
  {
  }

  /** updateBalance: nets the block's transactions per address, then increments every address once, in any order. */
  method UpdateBalance(cache: Cache, txs: seq<Tx>)
    modifies cache
    ensures cache.balances == Netted(old(cache.balances), txs)
  {
    hide IsNet, Netted;
    var balanceMap: map<Address, int> := map[];
    NothingBooked();
    for i := 0 to |txs|
      invariant cache.balances == old(cache.balances)
      invariant IsNet(balanceMap, txs[..i])
    {
      var tx := txs[i];
      BookedIsNet(balanceMap, txs, i);
      balanceMap := balanceMap[tx.from := Lookup(balanceMap, tx.from) - tx.value];
      balanceMap := balanceMap[tx.to := Lookup(balanceMap, tx.to) + tx.value];
    }
    assert txs[..|txs|] == txs;
    ApplyAll(cache, txs, balanceMap);
  }

  /** The balances in the middle of the pass over the net changes. */
  ghost predicate Halfway(done: set<Address>, txs: seq<Tx>, b: Balances, now: Balances) {
    forall a :: At(now, a) == if a in done then NettedAt(b, txs, a) else At(b, a)
  }

  lemma OneMoreApplied(done: set<Address>, txs: seq<Tx>, b: Balances, now: Balances, key: Address)
    requires Halfway(done, txs, b, now) && key !in done && key in Parties(txs)
    ensures Halfway(done + {key}, txs, b, IncrBy(now, key, Net(txs, key)))
  {
    hide IncrBy, Net, Parties;
    assert At(now, key) == At(b, key);
    IncrByEntry(b, key, 0, key);
    forall a ensures At(IncrBy(now, key, Net(txs, key)), a)
                     == if a in done + {key} then NettedAt(b, txs, a) else At(b, a) {
      assert At(now, a) == if a in done then NettedAt(b, txs, a) else At(b, a);
      IncrByEntry(now, key, Net(txs, key), a);
      IncrByEntry(now, key, Net(txs, key), key);
    }
  }

  lemma AllApplied(txs: seq<Tx>, b: Balances, now: Balances)
    requires Halfway(Parties(txs), txs, b, now)
    ensures now == Netted(b, txs)
  {
  }

  method ApplyAll(cache: Cache, txs: seq<Tx>, balanceMap: map<Address, int>)
    requires IsNet(balanceMap, txs)
    modifies cache
    ensures cache.balances == Netted(old(cache.balances), txs)
  {
    hide Parties, Net, Halfway, IncrBy, Netted;
    ghost var b, done: set<Address> := cache.balances, {};
    assert Halfway(done, txs, b, b) by { NoneApplied(txs, b); }
    var left := balanceMap.Keys;
    while left != {}
      invariant left !! done && left + done == balanceMap.Keys
      invariant Halfway(done, txs, b, cache.balances)
      decreases left
    {
      var a :| a in left;
      OneMoreApplied(done, txs, b, cache.balances, a);
      cache.Increment(a, balanceMap[a]);
      left, done := left - {a}, done + {a};
    }
    assert done == Parties(txs);
    AllApplied(txs, b, cache.balances);
  }

  lemma NoneApplied(txs: seq<Tx>, b: Balances)
    ensures Halfway({}, txs, b, b)
  {
  }

  // ---- netting refines one by one ----

  /** No sum that a party has on the way leaves the 64-bit range: neither after its debit nor after its credit. */
  predicate SafeAt(b: Balances, txs: seq<Tx>, i: nat)
    requires i < |txs|
  {
    var tx := txs[i];
    && (Named(tx.from) ==> InRange(Lookup(b, tx.from) + Net(txs[..i], tx.from) - tx.value))
    && (Named(tx.to) ==> InRange(Lookup(b, tx.to) + Net(txs[..i + 1], tx.to)))
  }

  ghost predicate Safe(b: Balances, txs: seq<Tx>) {
    forall i :: 0 <= i < |txs| ==> SafeAt(b, txs, i)
  }

  lemma SafeBefore(b: Balances, txs: seq<Tx>)
    requires Safe(b, txs) && txs != []
    ensures Safe(b, txs[..|txs| - 1])
  {
    var init := txs[..|txs| - 1];
    forall i | 0 <= i < |init| ensures SafeAt(b, init, i) {
      assert SafeAt(b, txs, i);
      assert init[..i] == txs[..i] && init[..i + 1] == txs[..i + 1];
    }
  }

  /** A party's net sum is the last sum it has on the way. */
  lemma {:induction false} NetIsSafe(b: Balances, txs: seq<Tx>, a: Address)
    requires Safe(b, txs) && a in Parties(txs) && Named(a)
    ensures InRange(Lookup(b, a) + Net(txs, a))
  {
    hide Parties, Net, Lookup;
    if txs == [] {
      NoParties();
    } else {
      var n := |txs| - 1;
      PartiesNext(txs, n);
      assert txs[..n + 1] == txs && SafeAt(b, txs, n);
      if a != txs[n].from && a != txs[n].to {
        SafeBefore(b, txs);
        NetIsSafe(b, txs[..n], a);
      }
    }
  }

  /** A debit and a credit that both stay in range. */
  lemma PairApplied(b: Balances, tx: Tx, a: Address)
    requires Named(tx.from) ==> InRange(Lookup(b, tx.from) - tx.value)
    requires Named(tx.to) ==> InRange(Lookup(IncrBy(b, tx.from, -tx.value), tx.to) + tx.value)
    ensures At(IncrBy(IncrBy(b, tx.from, -tx.value), tx.to, tx.value), a) ==
            if a in {tx.from, tx.to} && Named(a)
            then Some(Lookup(b, a) - (if tx.from == a then tx.value else 0) + (if tx.to == a then tx.value else 0))
            else At(b, a)
  {
  }

  /** The two increments of the next transaction stay in range exactly when its sums are safe. */
  predicate PairAccepted(before: Balances, tx: Tx) {
    && (Named(tx.from) ==> InRange(Lookup(before, tx.from) - tx.value))
    && (Named(tx.to) ==> InRange(Lookup(IncrBy(before, tx.from, -tx.value), tx.to) + tx.value))
  }

  lemma PairInRange(b: Balances, txs: seq<Tx>, before: Balances)
    requires txs != []
    requires var init, tx := txs[..|txs| - 1], txs[|txs| - 1];
             && (Named(tx.from) ==> Lookup(before, tx.from) == Lookup(b, tx.from) + Net(init, tx.from))
             && (Named(tx.to) ==> Lookup(before, tx.to) == Lookup(b, tx.to) + Net(init, tx.to))
    ensures PairAccepted(before, txs[|txs| - 1]) <==> SafeAt(b, txs, |txs| - 1)
  {
    hide IncrBy, Net;
    var n := |txs| - 1;
    var tx := txs[n];
    assert txs[..n + 1] == txs;
    PartiesNext(txs, n);
    IncrByEntry(before, tx.from, -tx.value, tx.to);
    IncrByEntry(IncrBy(before, tx.from, -tx.value), tx.to, 0, tx.to);
  }

  /** The entry of one address after transactions of which nothing was refused. */
  function NetEntry(b: Balances, txs: seq<Tx>, a: Address): Option<int> {
    if a in Parties(txs) && Named(a) then Some(Lookup(b, a) + Net(txs, a)) else At(b, a)
  }

  lemma NetEntryLookup(b: Balances, txs: seq<Tx>, now: Balances, a: Address)
    requires At(now, a) == NetEntry(b, txs, a) && Named(a)
    ensures Lookup(now, a) == Lookup(b, a) + Net(txs, a)
  {
    hide Parties, Net;
    if a !in Parties(txs) {
      NetOfStranger(txs, a);
    }
  }

  lemma NextNetEntry(b: Balances, txs: seq<Tx>, before: Balances, a: Address)
    requires txs != [] && PairAccepted(before, txs[|txs| - 1])
    requires At(before, a) == NetEntry(b, txs[..|txs| - 1], a)
    ensures var tx := txs[|txs| - 1];
            At(IncrBy(IncrBy(before, tx.from, -tx.value), tx.to, tx.value), a) == NetEntry(b, txs, a)
  {
    hide Parties, Net, IncrBy, Lookup;
    var n := |txs| - 1;
    assert txs[..n + 1] == txs;
    PartiesNext(txs, n);
    PairApplied(before, txs[n], a);
    if Named(a) {
      NetEntryLookup(b, txs[..n], before, a);
    }
  }

  /** One by one, every address ends with its net change, if nothing is refused on the way. */
  lemma {:induction false} SequentialIsNet(b: Balances, txs: seq<Tx>, a: Address)
    requires Safe(b, txs)
    ensures At(Sequential(b, txs), a) == NetEntry(b, txs, a)
    ensures Named(a) ==> Lookup(Sequential(b, txs), a) == Lookup(b, a) + Net(txs, a)
  {
    hide Safe, NetEntry, IncrBy, Lookup, Net, PairAccepted, SafeAt;
    if txs == [] {
      assert At(b, a) == NetEntry(b, txs, a) by { NothingNet(b, a); }
    } else {
      var init, tx := txs[..|txs| - 1], txs[|txs| - 1];
      SafeBefore(b, txs);
      SafeLast(b, txs);
      SequentialIsNet(b, init, tx.from);
      SequentialIsNet(b, init, tx.to);
      SequentialIsNet(b, init, a);
      PairInRange(b, txs, Sequential(b, init));
      NextNetEntry(b, txs, Sequential(b, init), a);
    }
    if Named(a) {
      NetEntryLookup(b, txs, Sequential(b, txs), a);
    }
  }

  lemma NothingNet(b: Balances, a: Address)
    ensures NetEntry(b, [], a) == At(b, a)
  {
    NoParties();
  }

  lemma NoParties()
    ensures Parties([]) == {}
  {
  }

  /** One by one, no increment is refused. */
  predicate AllAccepted(b: Balances, txs: seq<Tx>) {
    if txs == [] then true else
    var init, tx := txs[..|txs| - 1], txs[|txs| - 1];
    AllAccepted(b, init) && PairAccepted(Sequential(b, init), tx)
  }

  /** The sums are safe exactly when Redis refuses no increment of the transactions applied one by one. */
  lemma {:induction false} SafeIffAllAccepted(b: Balances, txs: seq<Tx>)
    ensures Safe(b, txs) <==> AllAccepted(b, txs)
  {
    hide SafeAt, PairAccepted, Sequential, Lookup;
    if txs != [] {
      var n := |txs| - 1;
      var init, tx := txs[..n], txs[n];
      SafeIffAllAccepted(b, init);
      if Safe(b, init) {
        SequentialIsNet(b, init, tx.from);
        SequentialIsNet(b, init, tx.to);
        PairInRange(b, txs, Sequential(b, init));
        SafeNext(b, txs);
      } else if Safe(b, txs) {
        SafeBefore(b, txs);
      }
    }
  }

  lemma SafeNext(b: Balances, txs: seq<Tx>)
    requires txs != [] && Safe(b, txs[..|txs| - 1])
    ensures Safe(b, txs) <==> SafeAt(b, txs, |txs| - 1)
  {
    var init := txs[..|txs| - 1];
    forall i | 0 <= i < |init| ensures SafeAt(b, txs, i) {
      assert SafeAt(b, init, i);
      assert init[..i] == txs[..i] && init[..i + 1] == txs[..i + 1];
    }
  }

  /** For every block whose transactions, one by one, would all be accepted: one increment per address with its net change
      gives the very balances that the transactions give. */
  lemma NettingRefinesSequential(b: Balances, txs: seq<Tx>)
    requires Safe(b, txs)
    ensures Netted(b, txs) == Sequential(b, txs)
  {
    hide Netted, Sequential, Net, Parties, Safe;
    forall a ensures At(Netted(b, txs), a) == At(Sequential(b, txs), a) {
      NettedEntry(b, txs, a);
      SequentialIsNet(b, txs, a);
      if a in Parties(txs) && Named(a) {
        NetIsSafe(b, txs, a);
      }
    }
    SameEntriesSameBalances(Netted(b, txs), Sequential(b, txs));
  }

  const FULL: Balances := map["a" := MAX_INT64]
  const IN_AND_OUT: seq<Tx> := [Tx("1", "", "a", 1), Tx("2", "a", "", 1)]

  lemma InAndOutNetsToNothing()
    ensures Netted(FULL, IN_AND_OUT) == FULL
  {
    hide Parties, Netted;
    var txs := IN_AND_OUT;
    assert txs[..2] == txs && txs[..0] == [];
    PartiesNext(txs, 0);
    PartiesNext(txs, 1);
    NoParties();
    forall a ensures At(Netted(FULL, txs), a) == At(FULL, a) {
      NettedEntry(FULL, txs, a);
      assert Net(txs[..1], a) == (if a == "a" then 1 else 0) - (if a == "" then 1 else 0);
    }
    SameEntriesSameBalances(Netted(FULL, txs), FULL);
  }

  lemma InAndOutOneByOne()
    ensures Sequential(FULL, IN_AND_OUT) == map["a" := MAX_INT64 - 1]
  {
    var txs := IN_AND_OUT;
    assert txs[..1] == [txs[0]] && txs[..1][..0] == [];
    assert Sequential(FULL, txs[..1]) == FULL;
  }

  /** Near the ends of the 64-bit range the two do differ: Redis refuses the first of two opposite increments. */
  lemma NettingDiffersOnOverflow()
    ensures Netted(FULL, IN_AND_OUT) != Sequential(FULL, IN_AND_OUT)
  {
    hide Netted, Sequential;
    InAndOutNetsToNothing();
    InAndOutOneByOne();
    assert FULL["a"] != map["a" := MAX_INT64 - 1]["a"];
  }

  lemma SafeLast(b: Balances, txs: seq<Tx>)
    requires Safe(b, txs) && txs != []
    ensures SafeAt(b, txs, |txs| - 1)
  {
  }

  // ---- the chain ----

  /** The links from a block on are acyclic: the stored blocks they lead to have ranks that every link lowers.  Nothing is
      said of blocks the links do not lead to.  No block is stored under the empty id, which a client refuses. */
  ghost predicate Acyclic(store: map<string, Block>, rank: map<string, nat>, start: string) {
    && "" !in store
    && (start in store ==> start in rank)
    && forall id :: id in store && id in rank && store[id].next in store ==>
         store[id].next in rank && rank[store[id].next] < rank[id]
  }

  /** The blocks from id on, up to the end of the chain or a link to nowhere. */
  ghost function Walk(store: map<string, Block>, rank: map<string, nat>, id: string): seq<Block>
    requires Acyclic(store, rank, id)
    decreases if id in store then rank[id] + 1 else 0
  {
    if id !in store then [] else [store[id]] + Walk(store, rank, store[id].next)
  }

  /** The id a walk stops at: empty at the end of the chain, else that of a block that is not there. */
  ghost function WalkEnd(store: map<string, Block>, rank: map<string, nat>, id: string): string
    requires Acyclic(store, rank, id)
    decreases if id in store then rank[id] + 1 else 0
  {
    if id !in store then id else WalkEnd(store, rank, store[id].next)
  }

  /** A walk starts at its block, follows every link to a stored block, and stops at the first that leads to none. */
  lemma {:induction false} WalkFollowsLinks(store: map<string, Block>, rank: map<string, nat>, id: string)
    requires Acyclic(store, rank, id)
    ensures var w := Walk(store, rank, id);
            if id !in store then w == [] && WalkEnd(store, rank, id) == id
            else
              && w != [] && w[0] == store[id]
              && (forall i :: 0 <= i < |w| - 1 ==> w[i].next in store && w[i + 1] == store[w[i].next])
              && w[|w| - 1].next !in store && WalkEnd(store, rank, id) == w[|w| - 1].next
    decreases if id in store then rank[id] + 1 else 0
  {
    if id in store {
      WalkFollowsLinks(store, rank, store[id].next);
    }
  }

  function ApplyBlocks(b: Balances, blocks: seq<Block>): Balances
    decreases |blocks|
  {
    if blocks == [] then b else ApplyBlocks(Netted(b, blocks[0].txs), blocks[1..])
  }

  /** Replays the chain from the genesis block on; false when it runs into a block that is not there. */
  method InitBalance(store: map<string, Block>, ghost rank: map<string, nat>, initBlockId: string, cache: Cache)
    returns (ok: bool)
    requires Acyclic(store, rank, initBlockId)
    modifies cache
    ensures cache.balances == ApplyBlocks(old(cache.balances), Walk(store, rank, initBlockId))
    ensures ok <==> WalkEnd(store, rank, initBlockId) == ""
  {
    var blockId := initBlockId;
    while blockId != ""
      invariant Acyclic(store, rank, blockId)
      invariant ApplyBlocks(cache.balances, Walk(store, rank, blockId))
                == ApplyBlocks(old(cache.balances), Walk(store, rank, initBlockId))
      invariant WalkEnd(store, rank, blockId) == WalkEnd(store, rank, initBlockId)
      decreases if blockId in store then rank[blockId] + 1 else 0
    {
      if blockId !in store {
        return false;
      }
      var block := store[blockId];
      assert Walk(store, rank, blockId)[1..] == Walk(store, rank, block.next);
      UpdateBalance(cache, block.txs);
      blockId := block.next;
    }
    return true;
  }

  /** The chain after a block: what is linked from it, if it is there at all. */
  method QueryBlockChain(store: map<string, Block>, ghost rank: map<string, nat>, fromBlockId: string)
    returns (blockList: seq<Block>)
    requires Acyclic(store, rank, fromBlockId)
    ensures Walk(store, rank, fromBlockId) == (if fromBlockId in store then [store[fromBlockId]] else []) + blockList
  {
    var blockId := "";
    if fromBlockId in store {
      blockId := store[fromBlockId].next;
    }
    ghost var start := blockId;
    blockList := [];
    assert blockList + Walk(store, rank, start) == Walk(store, rank, start);
    while blockId != ""
      invariant Acyclic(store, rank, blockId)
      invariant blockList + Walk(store, rank, blockId) == Walk(store, rank, start)
      decreases if blockId in store then rank[blockId] + 1 else 0
    {
      if blockId !in store {
        break;
      }
      var block := store[blockId];
      assert blockList + Walk(store, rank, blockId) == blockList + [block] + Walk(store, rank, block.next);
      blockList := blockList + [block];
      blockId := block.next;
    }
    assert Walk(store, rank, blockId) == [];
  }

  lemma {:induction false} ApplyBlocksInTwo(b: Balances, first: seq<Block>, rest: seq<Block>)
    ensures ApplyBlocks(b, first + rest) == ApplyBlocks(ApplyBlocks(b, first), rest)
    decreases |first|
  {
    if first == [] {
      assert first + rest == rest;
    } else {
      assert (first + rest)[1..] == first[1..] + rest;
      ApplyBlocksInTwo(Netted(b, first[0].txs), first[1..], rest);
    }
  }

  /** Both walks at once: replaying from the genesis block leaves the balances that updateBalance gives on the genesis
      block, if it is stored, and then on each block queryBlockChain returns for it, dangling links included. */
  method ReplayLikeQuery(store: map<string, Block>, ghost rank: map<string, nat>, genesis: string, cache: Cache)
    requires Acyclic(store, rank, genesis)
    modifies cache
    ensures cache.balances == ApplyBlocks(old(cache.balances), Walk(store, rank, genesis))
  {
    ghost var b := cache.balances;
    ghost var head := if genesis in store then [store[genesis]] else [];
    if genesis in store {
      UpdateBalance(cache, store[genesis].txs);
    }
    assert cache.balances == ApplyBlocks(b, head);
    var blockList := QueryBlockChain(store, rank, genesis);
    ApplyBlocksInTwo(b, head, blockList);
    for i := 0 to |blockList|
      invariant ApplyBlocks(cache.balances, blockList[i..]) == ApplyBlocks(b, head + blockList)
    {
      assert blockList[i..][1..] == blockList[i + 1..];
      UpdateBalance(cache, blockList[i].txs);
    }
  }
}

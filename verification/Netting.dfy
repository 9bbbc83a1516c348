/** What a block does to the total of all balances, and exactly when netting it, or applying it one by one, gives every
    address its net change. */
module Netting {
  import opened Int64
  import opened Options
  import opened Sums
  import opened Ledger
  import opened Blocks

  // ---- the net sums ----

  /** The net sum of every named party is in range: no increment of updateBalance is refused. */
  ghost predicate NetsInRange(b: Balances, txs: seq<Tx>) {
    forall a :: a in Parties(txs) && Named(a) ==> InRange(Lookup(b, a) + Net(txs, a))
  }

  ghost predicate AllNet(b: Balances, txs: seq<Tx>, now: Balances) {
    forall a :: Named(a) ==> Lookup(now, a) == Lookup(b, a) + Net(txs, a)
  }

  /** Every named address ends with its balance plus its net change exactly when every net sum is in range. */
  lemma NettedIsNetIff(b: Balances, txs: seq<Tx>)
    requires forall a :: InRange(Lookup(b, a))
    ensures AllNet(b, txs, Netted(b, txs)) <==> NetsInRange(b, txs)
  {
    hide Parties, Net, Netted;
    forall a | Named(a)
      ensures Lookup(Netted(b, txs), a) == Lookup(b, a) + Net(txs, a)
              <==> (a in Parties(txs) ==> InRange(Lookup(b, a) + Net(txs, a))) {
      NettedEntry(b, txs, a);
      if a !in Parties(txs) {
        NetOfStranger(txs, a);
      }
      assert InRange(Lookup(b, a));
    }
  }

  // ---- the total ----

  /** What transactions without a sender create, and what those without a receiver destroy. */
  function Minted(txs: seq<Tx>): int {
    if txs == [] then 0 else
    Minted(txs[..|txs| - 1]) + if Named(txs[|txs| - 1].from) then 0 else txs[|txs| - 1].value
  }

  function Burned(txs: seq<Tx>): int {
    if txs == [] then 0 else
    Burned(txs[..|txs| - 1]) + if Named(txs[|txs| - 1].to) then 0 else txs[|txs| - 1].value
  }

  /** An increment in unbounded integers. */
  function Add(b: Balances, key: Address, d: int): Balances {
    if Named(key) then b[key := Lookup(b, key) + d] else b
  }

  /** The transactions one by one, in unbounded integers. */
  function Folded(b: Balances, txs: seq<Tx>): Balances {
    if txs == [] then b else
    var before, tx := Folded(b, txs[..|txs| - 1]), txs[|txs| - 1];
    Add(Add(before, tx.from, -tx.value), tx.to, tx.value)
  }

  lemma TotalOfAdd(b: Balances, key: Address, d: int)
    ensures Total(Add(b, key, d)) == Total(b) + if Named(key) then d else 0
  {
    TotalAfterWrite(b, key, Lookup(b, key) + d);
  }

  lemma {:induction false} TotalOfFolded(b: Balances, txs: seq<Tx>)
    ensures Total(Folded(b, txs)) == Total(b) + Minted(txs) - Burned(txs)
  {
    hide Add;
    if txs != [] {
      var init, tx := txs[..|txs| - 1], txs[|txs| - 1];
      TotalOfFolded(b, init);
      TotalOfAdd(Folded(b, init), tx.from, -tx.value);
      TotalOfAdd(Add(Folded(b, init), tx.from, -tx.value), tx.to, tx.value);
    }
  }

  lemma PairAdded(b: Balances, tx: Tx, a: Address)
    ensures At(Add(Add(b, tx.from, -tx.value), tx.to, tx.value), a) ==
            if a in {tx.from, tx.to} && Named(a)
            then Some(Lookup(b, a) - (if tx.from == a then tx.value else 0) + (if tx.to == a then tx.value else 0))
            else At(b, a)
  {
  }

  lemma {:induction false} FoldedEntry(b: Balances, txs: seq<Tx>, a: Address)
    ensures At(Folded(b, txs), a) == NetEntry(b, txs, a)
  {
    hide Parties, Net, Lookup, Add;
    if txs == [] {
      NothingNet(b, a);
    } else {
      var n := |txs| - 1;
      var before := Folded(b, txs[..n]);
      FoldedEntry(b, txs[..n], a);
      assert txs[..n + 1] == txs;
      PartiesNext(txs, n);
      PairAdded(before, txs[n], a);
      if Named(a) {
        NetEntryLookup(b, txs[..n], before, a);
      }
    }
  }

  lemma NettedIsFolded(b: Balances, txs: seq<Tx>)
    requires NetsInRange(b, txs)
    ensures Netted(b, txs) == Folded(b, txs)
  {
    hide Parties, Net, Netted, Folded;
    forall a ensures At(Netted(b, txs), a) == At(Folded(b, txs), a) {
      NettedEntry(b, txs, a);
      FoldedEntry(b, txs, a);
    }
    SameEntriesSameBalances(Netted(b, txs), Folded(b, txs));
  }

  /** A block of which no increment is refused changes the total by exactly what it mints less what it burns. */
  lemma BlockChangesTotal(b: Balances, txs: seq<Tx>)
    requires NetsInRange(b, txs)
    ensures Total(Netted(b, txs)) == Total(b) + Minted(txs) - Burned(txs)
  {
    hide Netted, Folded, Total, NetsInRange;
    NettedIsFolded(b, txs);
    TotalOfFolded(b, txs);
  }

  lemma NettedIsNet(b: Balances, txs: seq<Tx>, a: Address)
    requires NetsInRange(b, txs) && Named(a)
    ensures Lookup(Netted(b, txs), a) == Lookup(b, a) + Net(txs, a)
  {
    hide Parties, Net, Netted;
    NettedEntry(b, txs, a);
    if a !in Parties(txs) {
      NetOfStranger(txs, a);
    }
  }

  // ---- a whole chain ----

  /** No increment is refused in any block of a replay. */
  ghost predicate ReplayInRange(b: Balances, blocks: seq<Block>)
    decreases |blocks|
  {
    blocks != [] ==> NetsInRange(b, blocks[0].txs) && ReplayInRange(Netted(b, blocks[0].txs), blocks[1..])
  }

  function AllTxs(blocks: seq<Block>): seq<Tx>
    decreases |blocks|
  {
    if blocks == [] then [] else blocks[0].txs + AllTxs(blocks[1..])
  }

  lemma {:induction false} NetAppend(txs: seq<Tx>, more: seq<Tx>, a: Address)
    ensures Net(txs + more, a) == Net(txs, a) + Net(more, a)
  {
    if more == [] {
      assert txs + more == txs;
    } else {
      NetAppend(txs, more[..|more| - 1], a);
      assert (txs + more)[..|txs + more| - 1] == txs + more[..|more| - 1];
    }
  }

  lemma NetOfNothing(a: Address)
    ensures Net([], a) == 0
  {
  }

  /** Replaying a chain of which no increment is refused gives every account its net change over all transactions of all
      blocks. */
  lemma {:induction false} ReplayIsNet(b: Balances, blocks: seq<Block>, a: Address)
    requires ReplayInRange(b, blocks) && Named(a)
    ensures Lookup(ApplyBlocks(b, blocks), a) == Lookup(b, a) + Net(AllTxs(blocks), a)
    decreases |blocks|
  {
    hide Netted, NetsInRange, Lookup, Net;
    if blocks == [] {
      NetOfNothing(a);
    } else {
      NettedIsNet(b, blocks[0].txs, a);
      ReplayIsNet(Netted(b, blocks[0].txs), blocks[1..], a);
      NetAppend(blocks[0].txs, AllTxs(blocks[1..]), a);
    }
  }

  /** If nothing is refused one by one, nothing is refused net. */
  lemma SafeNetsInRange(b: Balances, txs: seq<Tx>)
    requires Safe(b, txs)
    ensures NetsInRange(b, txs)
  {
    hide Safe, Net, Parties;
    forall a | a in Parties(txs) && Named(a) ensures InRange(Lookup(b, a) + Net(txs, a)) {
      NetIsSafe(b, txs, a);
    }
  }

  lemma TotalOfSequential(b: Balances, txs: seq<Tx>)
    requires Safe(b, txs)
    ensures Total(Sequential(b, txs)) == Total(b) + Minted(txs) - Burned(txs)
  {
    hide Safe, Netted, Sequential, Total, NetsInRange;
    SafeNetsInRange(b, txs);
    NettingRefinesSequential(b, txs);
    BlockChangesTotal(b, txs);
  }

  // ---- one by one ----

  lemma {:induction false} SequentialStaysInRange(b: Balances, txs: seq<Tx>, a: Address)
    requires forall k :: InRange(Lookup(b, k))
    ensures InRange(Lookup(Sequential(b, txs), a))
  {
    if txs != [] {
      hide Sequential, IncrBy, Lookup;
      var init, tx := txs[..|txs| - 1], txs[|txs| - 1];
      var before := Sequential(b, init);
      SequentialStaysInRange(b, init, a);
      IncrByStaysInRange(before, tx.from, -tx.value, a);
      IncrByStaysInRange(IncrBy(before, tx.from, -tx.value), tx.to, tx.value, a);
      SequentialNext(b, txs);
    }
  }

  lemma SequentialNext(b: Balances, txs: seq<Tx>)
    requires txs != []
    ensures var before, tx := Sequential(b, txs[..|txs| - 1]), txs[|txs| - 1];
            Sequential(b, txs) == IncrBy(IncrBy(before, tx.from, -tx.value), tx.to, tx.value)
  {
  }

  lemma IncrByStaysInRange(b: Balances, key: Address, d: int, a: Address)
    requires InRange(Lookup(b, a))
    ensures InRange(Lookup(IncrBy(b, key, d), a))
  {
  }

  /** Every prefix of the block, applied one by one, gives every named address its net change. */
  ghost predicate PrefixesAreNet(b: Balances, txs: seq<Tx>) {
    forall k :: 0 <= k <= |txs| ==> AllNet(b, txs[..k], Sequential(b, txs[..k]))
  }

  /** A refused increment shows: its address does not get its net change. */
  lemma RefusalShows(before: Balances, tx: Tx)
    requires InRange(Lookup(before, tx.from)) && InRange(Lookup(before, tx.to))
    requires !PairAccepted(before, tx)
    ensures var after := IncrBy(IncrBy(before, tx.from, -tx.value), tx.to, tx.value);
            || (Named(tx.from) && Lookup(after, tx.from) !=
                Lookup(before, tx.from) - tx.value + if tx.to == tx.from then tx.value else 0)
            || (Named(tx.to) && Lookup(after, tx.to) !=
                Lookup(before, tx.to) + tx.value - if tx.to == tx.from then tx.value else 0)
  {
  }

  /** Applied one by one, every prefix of the block gives every named address its net change exactly when Redis refuses no
      increment on the way, that is, when no partial sum of a named party leaves the 64-bit range. */
  lemma {:induction false} SequentialIsNetIff(b: Balances, txs: seq<Tx>)
    requires forall a :: InRange(Lookup(b, a))
    ensures PrefixesAreNet(b, txs) <==> Safe(b, txs)
  {
    hide Sequential, Net, Safe, PairAccepted, SafeAt;
    if Safe(b, txs) {
      forall k | 0 <= k <= |txs| ensures AllNet(b, txs[..k], Sequential(b, txs[..k])) {
        SafePrefix(b, txs, k);
        forall a | Named(a) ensures Lookup(Sequential(b, txs[..k]), a) == Lookup(b, a) + Net(txs[..k], a) {
          SequentialIsNet(b, txs[..k], a);
        }
      }
    } else if PrefixesAreNet(b, txs) {
      FirstRefusal(b, txs);
    }
  }

  lemma {:induction false} SafePrefix(b: Balances, txs: seq<Tx>, k: nat)
    requires Safe(b, txs) && k <= |txs|
    ensures Safe(b, txs[..k])
  {
    hide Safe;
    if k < |txs| {
      SafeBefore(b, txs);
      SafePrefix(b, txs[..|txs| - 1], k);
      assert txs[..|txs| - 1][..k] == txs[..k];
    } else {
      assert txs[..k] == txs;
    }
  }

  lemma {:induction false} FirstRefusal(b: Balances, txs: seq<Tx>)
    requires forall a :: InRange(Lookup(b, a))
    requires !Safe(b, txs)
    ensures !PrefixesAreNet(b, txs)
  {
    hide Sequential, Net, Safe, PairAccepted, SafeAt, AllNet;
    NothingIsSafe(b);
    var n := |txs| - 1;
    var init := txs[..n];
    if !Safe(b, init) {
      FirstRefusal(b, init);
      var k :| 0 <= k <= |init| && !AllNet(b, init[..k], Sequential(b, init[..k]));
      assert init[..k] == txs[..k];
    } else {
      SafeNext(b, txs);
      LastRefusal(b, txs);
      assert txs[..n + 1] == txs;
    }
  }

  lemma NothingIsSafe(b: Balances)
    ensures Safe(b, [])
  {
  }

  lemma LastRefusal(b: Balances, txs: seq<Tx>)
    requires forall a :: InRange(Lookup(b, a))
    requires txs != [] && Safe(b, txs[..|txs| - 1]) && !SafeAt(b, txs, |txs| - 1)
    ensures !AllNet(b, txs, Sequential(b, txs))
  {
    hide Sequential, Net, Safe, PairAccepted, SafeAt, Lookup, IncrBy;
    var n := |txs| - 1;
    var init, tx := txs[..n], txs[n];
    var before := Sequential(b, init);
    SequentialIsNet(b, init, tx.from);
    SequentialIsNet(b, init, tx.to);
    SequentialStaysInRange(b, init, tx.from);
    SequentialStaysInRange(b, init, tx.to);
    PairInRange(b, txs, before);
    RefusalShows(before, tx);
    SequentialNext(b, txs);
    assert txs[..n + 1] == txs;
    PartiesNext(txs, n);
  }

  /** Net sums in range at every prefix, netting every prefix gives what one-by-one application gives exactly when that
      refuses nothing. */
  lemma NettingRefinesSequentialIff(b: Balances, txs: seq<Tx>)
    requires forall a :: InRange(Lookup(b, a))
    requires forall k :: 0 <= k <= |txs| ==> NetsInRange(b, txs[..k])
    ensures (forall k :: 0 <= k <= |txs| ==> Netted(b, txs[..k]) == Sequential(b, txs[..k])) <==> Safe(b, txs)
  {
    hide Netted, Sequential, Safe, NetsInRange, AllNet;
    if Safe(b, txs) {
      forall k | 0 <= k <= |txs| ensures Netted(b, txs[..k]) == Sequential(b, txs[..k]) {
        SafePrefix(b, txs, k);
        NettingRefinesSequential(b, txs[..k]);
      }
    }
    if forall k :: 0 <= k <= |txs| ==> Netted(b, txs[..k]) == Sequential(b, txs[..k]) {
      forall k | 0 <= k <= |txs| ensures AllNet(b, txs[..k], Sequential(b, txs[..k])) {
        NettedIsNetIff(b, txs[..k]);
      }
      SequentialIsNetIff(b, txs);
    }
  }
}

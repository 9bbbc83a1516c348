/** The sharded cache of cache/RedisCache.cpp over the Redis commands of cache/RedisClient.cpp. */
module RedisCaches {
  import opened Bytes
  import opened Int64
  import opened Options

  type Key = bytes

  // ---- one Redis ----

  datatype Entry = Str(s: bytes) | List(items: seq<bytes>) | Set(members: set<bytes>)

  type Store = map<Key, Entry>

  datatype Command =
    | Get(key: Key)
    | SetAlways(key: Key, value: bytes)
    | SetNX(key: Key, value: bytes)
    | Delete(key: Key)
    | IncrBy(key: Key, increment: int)
    | RPush(key: Key, values: seq<bytes>)
    | LPop(key: Key)
    | LRangeAll(key: Key)
    | SAdd(key: Key, value: bytes)
    | SMembers(key: Key)

  datatype Status = Ok | ConnErr | ProtoErr | KeyExistErr | UndefineErr

  datatype Reply = Reply(status: Status, text: Option<bytes>, number: Option<int>, items: seq<bytes>, members: set<bytes>)

  function Just(status: Status): Reply {
    Reply(status, None, None, [], {})
  }

  // ---- decimal integers, as INCRBY reads and writes them ----

  function Digits(n: nat): bytes {
    (if n < 10 then [] else Digits(n / 10)) + [48 + n % 10]
  }

  function Render(n: int): bytes {
    if n < 0 then [45] + Digits(-n) else Digits(n)
  }

  function Value(s: bytes): nat {
    if s == [] then 0 else Value(s[..|s| - 1]) * 10 + if 48 <= s[|s| - 1] < 58 then s[|s| - 1] as int - 48 else 0
  }

  function ParseInt(s: bytes): Option<int> {
    var n: int := Value(s);
    if s == Render(n) then Some(n) else if s == Render(-n) then Some(-n) else None
  }

  lemma {:induction false} DigitsDenote(n: nat)
    ensures Value(Digits(n)) == n && |Digits(n)| > 0 && Digits(n)[0] != 45
  {
    var init := if n < 10 then [] else Digits(n / 10);
    assert Digits(n)[..|init|] == init;
    if n >= 10 {
      DigitsDenote(n / 10);
    }
  }

  lemma {:induction false} SignCountsForNothing(s: bytes)
    ensures Value([45] + s) == Value(s)
  {
    if s != [] {
      SignCountsForNothing(s[..|s| - 1]);
      assert ([45] + s)[..|s|] == [45] + s[..|s| - 1];
    } else {
      assert [45] + s == [45];
    }
  }

  /** What INCRBY stored, the next INCRBY reads back. */
  lemma RenderedReadsBack(v: int)
    ensures ParseInt(Render(v)) == Some(v)
  {
    hide Digits, Value;
    DigitsDenote(if v < 0 then -v else v);
    if v < 0 {
      SignCountsForNothing(Digits(-v));
      assert Render(v)[0] == 45;
    }
  }

  /** Digits are decimal ASCII, the highest first, after a minus sign. */
  lemma RenderedInDecimal()
    ensures Render(-1205) == [0x2D, 0x31, 0x32, 0x30, 0x35] && Render(0) == [0x30]
  {
    assert Digits(12) == [0x31, 0x32];
    assert Digits(120) == [0x31, 0x32, 0x30];
  }

  /** What a command does to the entry of its key, and what the client makes of the reply.  Keys are refused by the
      client where it checks them; a wrong type is an error reply, which Get and LPop do not notice. */
  function ExecEntry(e: Option<Entry>, c: Command): (Option<Entry>, Reply) {
    if c.key == [] && (c.Get? || c.SetAlways? || c.SetNX? || c.Delete? || c.IncrBy? || c.RPush?) then (e, Just(ProtoErr)) else
    match c
    case Get(_) => (e, Just(Ok).(text := if e.Some? && e.value.Str? then Some(e.value.s) else None))
    case SetAlways(_, v) => (Some(Str(v)), Just(Ok))
    case SetNX(_, v) => if e.Some? then (e, Just(KeyExistErr)) else (Some(Str(v)), Just(Ok))
    case Delete(_) => (None, Just(Ok))
    case IncrBy(_, d) =>
      var before := if e.None? then Some(0) else if e.value.Str? then ParseInt(e.value.s) else None;
      if before.None? || !InRange(before.value + d) then (e, Just(UndefineErr))
      else (Some(Str(Render(before.value + d))), Just(Ok).(number := Some(before.value + d)))
    case RPush(_, vs) =>
      if vs == [] then (e, Just(ProtoErr))
      else if e.None? then (Some(List(vs)), Just(Ok))
      else if e.value.List? then (Some(List(e.value.items + vs)), Just(Ok))
      else (e, Just(UndefineErr))
    case LPop(_) =>
      if e.Some? && e.value.List? && e.value.items != [] then
        (if |e.value.items| == 1 then None else Some(List(e.value.items[1..])), Just(Ok).(text := Some(e.value.items[0])))
      else (e, Just(Ok))
    case LRangeAll(_) =>
      if e.None? then (e, Just(Ok))
      else if e.value.List? then (e, Just(Ok).(items := e.value.items))
      else (e, Just(UndefineErr))
    case SAdd(_, v) =>
      if e.None? then (Some(Set({v})), Just(Ok))
      else if e.value.Set? then (Some(Set(e.value.members + {v})), Just(Ok))
      else (e, Just(UndefineErr))
    case SMembers(_) =>
      if e.None? then (e, Just(Ok))
      else if e.value.Set? then (e, Just(Ok).(members := e.value.members))
      else (e, Just(UndefineErr))
  }

  /** The number a key stands for: none at all, or one that INCRBY wrote. */
  predicate Holds(e: Option<Entry>, v: int) {
    (e.None? && v == 0) || e == Some(Str(Render(v)))
  }

  /** On a key that holds a number, IncrBy adds, exactly when the client accepts the key and the sum fits 64 bits. */
  lemma IncrByAdds(e: Option<Entry>, v: int, key: Key, d: int)
    requires Holds(e, v)
    ensures var (after, r) := ExecEntry(e, IncrBy(key, d));
            if key != [] && InRange(v + d)
            then r.status == Ok && r.number == Some(v + d) && Holds(after, v + d)
            else r.status != Ok && after == e
  {
    hide Render, ParseInt;
    RenderedReadsBack(v);
  }

  // ---- queues and sets ----

  function Queue(items: seq<bytes>): Option<Entry> {
    if items == [] then None else Some(List(items))
  }

  /** What enQueue, one item at a time, makes of an absent key. */
  function EnQueued(key: Key, items: seq<bytes>): Option<Entry> {
    if items == [] then None
    else ExecEntry(EnQueued(key, items[..|items| - 1]), RPush(key, [items[|items| - 1]])).0
  }

  /** What n times deQueue takes out; nothing reads as the empty string. */
  function DeQueued(key: Key, e: Option<Entry>, n: nat): seq<bytes>
    decreases n
  {
    if n == 0 then [] else
    var (rest, r) := ExecEntry(e, LPop(key));
    [if r.text.Some? then r.text.value else []] + DeQueued(key, rest, n - 1)
  }

  lemma {:induction false} EnQueuedInOrder(key: Key, items: seq<bytes>)
    requires key != []
    ensures EnQueued(key, items) == Queue(items)
  {
    if items != [] {
      EnQueuedInOrder(key, items[..|items| - 1]);
      assert items[..|items| - 1] + [items[|items| - 1]] == items;
    }
  }

  lemma {:induction false} DeQueuedInOrder(key: Key, items: seq<bytes>)
    ensures DeQueued(key, Queue(items), |items|) == items
  {
    if items != [] {
      DeQueuedInOrder(key, items[1..]);
      assert [items[0]] + items[1..] == items;
    }
  }

  /** A queue gives out what was put in, in order, one by one or all at once. */
  lemma QueueIsFifo(key: Key, items: seq<bytes>)
    requires key != []
    ensures DeQueued(key, EnQueued(key, items), |items|) == items
    ensures ExecEntry(EnQueued(key, items), LRangeAll(key)).1 == Just(Ok).(items := items)
  {
    EnQueuedInOrder(key, items);
    DeQueuedInOrder(key, items);
  }

  function Added(key: Key, values: seq<bytes>): Option<Entry> {
    if values == [] then None else ExecEntry(Added(key, values[..|values| - 1]), SAdd(key, values[|values| - 1])).0
  }

  /** A set has the members that were added, whatever the order and however often. */
  lemma {:induction false} MembersAreTheAdded(key: Key, values: seq<bytes>)
    ensures values != [] ==> Added(key, values).Some? && Added(key, values).value.Set?
    ensures var (e, r) := ExecEntry(Added(key, values), SMembers(key));
            r.status == Ok && forall v :: v in r.members <==> v in values
  {
    if values != [] {
      MembersAreTheAdded(key, values[..|values| - 1]);
      assert values[..|values| - 1] + [values[|values| - 1]] == values;
    }
  }

  /** What the pushes among some commands put in, and what the pops among them take out. */
  function PushedBy(cs: seq<Command>): seq<bytes> {
    if cs == [] then [] else
    PushedBy(cs[..|cs| - 1]) + if cs[|cs| - 1].RPush? then cs[|cs| - 1].values else []
  }

  function Worked(cs: seq<Command>): (r: (Option<Entry>, seq<bytes>)) {
    if cs == [] then (None, []) else
    var (before, popped) := Worked(cs[..|cs| - 1]);
    var (e, r) := ExecEntry(before, cs[|cs| - 1]);
    (e, popped + if r.text.Some? then [r.text.value] else [])
  }

  predicate ForQueue(c: Command) {
    (c.RPush? && c.key != []) || c.LPop? || c.LRangeAll?
  }

  function Waiting(e: Option<Entry>): seq<bytes>
    requires e.Some? ==> e.value.List?
  {
    if e.Some? then e.value.items else []
  }

  lemma QueueStep(e: Option<Entry>, c: Command)
    requires ForQueue(c) && (e.Some? ==> e.value.List?)
    ensures var (after, r) := ExecEntry(e, c);
            && (after.Some? ==> after.value.List?)
            && (if r.text.Some? then [r.text.value] else []) + Waiting(after)
               == Waiting(e) + if c.RPush? then c.values else []
  {
    hide Render, ParseInt;
    if e.Some? && e.value.items != [] {
      assert e.value.items == [e.value.items[0]] + e.value.items[1..];
    }
  }

  /** However pushes, pops and reads of a queue alternate: what was taken out, then what is left, is what was put in. */
  lemma {:induction false} QueueConserves(cs: seq<Command>)
    requires forall i :: 0 <= i < |cs| ==> ForQueue(cs[i])
    ensures var (e, popped) := Worked(cs); (e.Some? ==> e.value.List?) && popped + Waiting(e) == PushedBy(cs)
  {
    hide ExecEntry, ForQueue, Waiting;
    if cs == [] {
      assert Waiting(None) == [] by { NothingWaits(); }
    } else {
      var n := |cs| - 1;
      QueueConserves(cs[..n]);
      var (before, popped) := Worked(cs[..n]);
      QueueStep(before, cs[n]);
      var (after, r) := ExecEntry(before, cs[n]);
      var taken, put := if r.text.Some? then [r.text.value] else [], if cs[n].RPush? then cs[n].values else [];
      assert popped + taken + Waiting(after) == popped + (taken + Waiting(after)) == popped + Waiting(before) + put;
    }
  }

  lemma NothingWaits()
    ensures Waiting(None) == []
  {
  }

  // ---- what a write leaves to read ----

  /** What a plain write leaves, a read returns, whatever was there before; after a delete there is nothing. */
  lemma SetIsRead(e: Option<Entry>, key: Key, v: bytes)
    requires key != []
    ensures ExecEntry(e, SetAlways(key, v)).1 == Just(Ok) == ExecEntry(e, Delete(key)).1
    ensures ExecEntry(ExecEntry(e, SetAlways(key, v)).0, Get(key)).1 == Just(Ok).(text := Some(v))
    ensures ExecEntry(e, Delete(key)).0 == None && ExecEntry(None, Get(key)).1 == Just(Ok)
  {
  }

  /** A write that must not overwrite succeeds exactly on an absent key, and otherwise changes nothing: it can serve as a
      lock. */
  lemma SetNXIsALock(e: Option<Entry>, key: Key, v: bytes)
    requires key != []
    ensures var (after, r) := ExecEntry(e, SetNX(key, v));
            && (r.status == Ok <==> e.None?)
            && (e.None? ==> ExecEntry(after, Get(key)).1.text == Some(v))
            && (e.Some? ==> after == e && r == Just(KeyExistErr))
  {
  }

  /** The type of entry a command works on, if it minds. */
  predicate WrongType(e: Entry, c: Command) {
    match c
    case Get(_) => !e.Str?
    case IncrBy(_, _) => !e.Str?
    case RPush(_, _) => !e.List?
    case LPop(_) => !e.List?
    case LRangeAll(_) => !e.List?
    case SAdd(_, _) => !e.Set?
    case SMembers(_) => !e.Set?
    case _ => false
  }

  /** An entry of another type is never changed, and nothing is read out of it; Get and LPop say Ok all the same. */
  lemma WrongTypeIsKept(e: Entry, c: Command)
    requires WrongType(e, c)
    ensures var (after, r) := ExecEntry(Some(e), c);
            after == Some(e) && r == Just(r.status) && (c.key != [] && (c.Get? || c.LPop?) ==> r.status == Ok)
    ensures !c.Get? && !c.LPop? ==> ExecEntry(Some(e), c).1.status != Ok
  {
  }

  /** The client itself refuses the empty key, except for pops, whole reads and sets. */
  lemma EmptyKeyIsRefused(e: Option<Entry>, c: Command)
    requires c.key == [] && !c.LPop? && !c.LRangeAll? && !c.SAdd? && !c.SMembers?
    ensures ExecEntry(e, c) == (e, Just(ProtoErr))
  {
  }

  function At(s: Store, k: Key): Option<Entry> {
    if k in s then Some(s[k]) else None
  }

  function Put(s: Store, k: Key, e: Option<Entry>): Store {
    if e.Some? then s[k := e.value] else s - {k}
  }

  function Exec(s: Store, c: Command): (Store, Reply) {
    var (e, r) := ExecEntry(At(s, c.key), c);
    (Put(s, c.key, e), r)
  }

  /** A command leaves an entry as it is if it only reads it or is about another key. */
  predicate Spares(c: Command, key: Key) {
    c.key != key || c.Get? || c.LRangeAll? || c.SMembers?
  }

  lemma ExecSpares(s: Store, c: Command, key: Key)
    requires Spares(c, key)
    ensures At(Exec(s, c).0, key) == At(s, key)
  {
  }

  class RedisClient {
    var connected: bool
    var store: Store

    method Run(c: Command) returns (r: Reply)
      modifies this`store
      ensures (store, r) == Exec(old(store), c)
    {
      var (s, reply) := Exec(store, c);
      store := s;
      r := reply;
    }
  }

  // ---- the hash ----

  const HASH_SEED: bv32 := 1315423911
  const HASH_SKIP := 7  // the first characters of a key do not count

  /** A char added to a uint32: sign-extended, then modulo 2^32. */
  function SignExtend(b: byte): bv32 {
    if b < 0x80 then b as bv32 else (b as bv32) | 0xFFFF_FF00
  }

  function Mix(hash: bv32, b: byte): bv32 {
    hash ^ ((hash << 5) + SignExtend(b) + (hash >> 2))
  }

  function HashFrom(hash: bv32, s: bytes): bv32 {
    if s == [] then hash else Mix(HashFrom(hash, s[..|s| - 1]), s[|s| - 1])
  }

  function Hash(key: Key): bv32 {
    HashFrom(HASH_SEED, if |key| > HASH_SKIP then key[HASH_SKIP..] else [])
  }

  /** The hash of some keys: of at most seven characters, of one character more, and of one above 0x7F after it, which
      counts as negative. */
  lemma HashOfAccount(short: Key, key: Key)
    requires |short| <= 7 && |key| == 9 && key[7..] == [0x41, 0xE9]
    ensures Hash(short) == 0x4e67c6a7
    ensures Hash(key[..8]) == 0xaef5006d && Hash(key) == 0xa4a84dc9
  {
    hide Mix;
    assert key[..8][7..] == [0x41] && [0x41][..0] == [];
    assert [0x41, 0xE9][..1] == [0x41];
    MixOfTwo();
  }

  lemma MixOfTwo()
    ensures SignExtend(0x7F) == 0x7F && SignExtend(0x80) == 0xFFFF_FF80 && SignExtend(0xFF) == 0xFFFF_FFFF
    ensures Mix(HASH_SEED, 0x41) == 0xaef5006d && Mix(0xaef5006d, 0xE9) == 0xa4a84dc9
  {
  }

  function Shard(key: Key, pool: nat): (i: nat)
    requires pool > 0
    ensures i < pool
  {
    (Hash(key) & 0x7FFF_FFFF) as int % pool
  }

  /** The top bit does not count for the shard. */
  lemma ShardOfAccount(key: Key)
    requires |key| == 9 && key[7..] == [0x41, 0xE9]
    ensures Shard(key, 1000) == 737 && Shard(key, 1) == 0
  {
    hide Hash;
    HashOfAccount([], key);
    assert Hash(key) & 0x7FFF_FFFF == 0x24a84dc9;
    assert (Hash(key) & 0x7FFF_FFFF) as int == 0x24a84dc9;
  }

  // ---- shards of one map ----

  /** Every key lives in the shard its hash picks. */
  ghost predicate Placed(stores: seq<Store>) {
    forall i, k :: 0 <= i < |stores| && k in stores[i] ==> Shard(k, |stores|) == i
  }

  function AllKeys(stores: seq<Store>): set<Key> {
    if stores == [] then {} else AllKeys(stores[..|stores| - 1]) + stores[|stores| - 1].Keys
  }

  lemma {:induction false} InAllKeys(stores: seq<Store>, k: Key)
    ensures k in AllKeys(stores) <==> exists i :: 0 <= i < |stores| && k in stores[i]
  {
    if stores != [] {
      var init := stores[..|stores| - 1];
      InAllKeys(init, k);
      assert forall i :: 0 <= i < |init| ==> init[i] == stores[i];
    }
  }

  /** The one map the shards together stand for. */
  function Flat(stores: seq<Store>): Store
    requires |stores| > 0
  {
    map k | k in AllKeys(stores) && k in stores[Shard(k, |stores|)] :: stores[Shard(k, |stores|)][k]
  }

  lemma FlatAt(stores: seq<Store>, k: Key)
    requires |stores| > 0
    ensures At(Flat(stores), k) == At(stores[Shard(k, |stores|)], k)
  {
    hide Shard;
    InAllKeys(stores, k);
  }

  lemma SameEntries(s: Store, t: Store)
    requires forall k :: At(s, k) == At(t, k)
    ensures s == t
  {
    forall k ensures k in s <==> k in t {
      assert At(s, k) == At(t, k);
    }
    forall k | k in s ensures s[k] == t[k] {
      assert At(s, k) == At(t, k);
    }
  }

  lemma PutAt(s: Store, k: Key, e: Option<Entry>, other: Key)
    ensures At(Put(s, k, e), other) == if other == k then e else At(s, other)
  {
  }

  /** Running a command on the shard of its key is running it on the one map. */
  lemma ShardedExec(stores: seq<Store>, c: Command)
    requires |stores| > 0 && Placed(stores)
    ensures var i := Shard(c.key, |stores|);
            var after := stores[i := Exec(stores[i], c).0];
            && Placed(after)
            && (Flat(after), Exec(stores[i], c).1) == Exec(Flat(stores), c)
  {
    hide Shard, ExecEntry, Flat, Placed;
    var i := Shard(c.key, |stores|);
    var after := stores[i := Exec(stores[i], c).0];
    FlatAt(stores, c.key);
    var e := ExecEntry(At(stores[i], c.key), c).0;
    StaysPlaced(stores, c.key, e);
    forall k ensures At(Flat(after), k) == At(Put(Flat(stores), c.key, e), k) {
      FlatAt(after, k);
      FlatAt(stores, k);
      PutAt(stores[i], c.key, e, k);
      PutAt(Flat(stores), c.key, e, k);
    }
    SameEntries(Flat(after), Put(Flat(stores), c.key, e));
  }

  lemma StaysPlaced(stores: seq<Store>, key: Key, e: Option<Entry>)
    requires |stores| > 0 && Placed(stores)
    ensures var i := Shard(key, |stores|); Placed(stores[i := Put(stores[i], key, e)])
  {
  }

  /** The loop over the key's characters, from the eighth on. */
  method HashKey(key: Key) returns (hash: bv32)
    ensures hash == Hash(key)
  {
    hide Mix;
    hash := HASH_SEED;
    if |key| > 0 {
      var i := HASH_SKIP;
      while i < |key|
        invariant HASH_SKIP <= i && (|key| > HASH_SKIP ==> i <= |key|)
        invariant hash == HashFrom(HASH_SEED, if |key| > HASH_SKIP then key[HASH_SKIP..i] else [])
      {
        assert key[HASH_SKIP..i + 1][..i - HASH_SKIP] == key[HASH_SKIP..i];
        hash := Mix(hash, key[i]);
        i := i + 1;
      }
      assert |key| > HASH_SKIP ==> key[HASH_SKIP..|key|] == key[HASH_SKIP..];
    }
  }

  method PickShard(key: Key, pool: nat) returns (i: nat)
    requires pool > 0
    ensures i == Shard(key, pool) < pool
  {
    hide Hash;
    var hash := HashKey(key);
    i := (hash & 0x7FFF_FFFF) as int % pool;
  }

  class RedisCache {
    const clients: seq<RedisClient>

    ghost predicate Valid()
      reads clients
    {
      && |clients| > 0
      && (forall i, j :: 0 <= i < j < |clients| ==> clients[i] != clients[j])
      && Placed(Stores())
    }

    ghost function Stores(): (s: seq<Store>)
      reads clients
      ensures |s| == |clients|
    {
      seq(|clients|, i requires 0 <= i < |clients| reads clients => clients[i].store)
    }

    /** A pool of connected, empty servers. */
    constructor (clients: seq<RedisClient>)
      requires |clients| > 0
      requires forall i, j :: 0 <= i < j < |clients| ==> clients[i] != clients[j]
      requires forall i :: 0 <= i < |clients| ==> clients[i].store == map[]
      ensures Valid() && this.clients == clients && Flat(Stores()) == map[]
    {
      this.clients := clients;
      new;
      forall k ensures At(Flat(Stores()), k) == At(map[], k) {
        FlatAt(Stores(), k);
      }
      SameEntries(Flat(Stores()), map[]);
    }

    /** The index is always within the pool, and the same key always picks the same client.  A client that is
        not connected is connected first; null when that fails. */
    method Dispatch(key: Key, connectOk: bool) returns (client: RedisClient?)
      requires Valid()
      modifies clients
      ensures Valid() && Stores() == old(Stores())
      ensures client == null || client == clients[Shard(key, |clients|)]
      ensures client == null <==> !old(clients[Shard(key, |clients|)].connected) && !connectOk
      ensures client != null <==> clients[Shard(key, |clients|)].connected
      ensures forall other :: other in clients && other != client ==> other.connected == old(other.connected)
    {
      hide Shard, Placed;
      var index := PickShard(key, |clients|);
      client := clients[index];
      if !client.connected {
        if !connectOk {
          return null;
        }
        client.connected := true;
      }
      assert Stores() == old(Stores());
    }

    /** Any operation on one key: what one flat Redis would do and answer, or, when the key's server cannot be reached,
        nothing. */
    method Call(c: Command, connectOk: bool) returns (r: Reply)
      requires Valid()
      modifies clients
      ensures Valid()
      ensures if old(clients[Shard(c.key, |clients|)].connected) || connectOk
              then (Flat(Stores()), r) == Exec(Flat(old(Stores())), c) && clients[Shard(c.key, |clients|)].connected
              else Stores() == old(Stores()) && r == Just(ConnErr) && !clients[Shard(c.key, |clients|)].connected
    {
      hide Shard, ExecEntry, Placed, Flat, Exec;
      var client := Dispatch(c.key, connectOk);
      if client == null {
        return Just(ConnErr);
      }
      ghost var before, i := Stores(), Shard(c.key, |clients|);
      assert before[i] == client.store;
      ShardedExec(before, c);
      r := client.Run(c);
      assert Stores() == before[i := client.store];
    }

    /** Empties a list: reads it all, then deletes the key. */
    method DeQueueAll(key: Key, connectOk: bool) returns (ok: bool, items: seq<bytes>)
      requires Valid()
      modifies clients
      ensures Valid()
      ensures old(clients[Shard(key, |clients|)].connected) || connectOk ==>
                var (s1, r1) := Exec(Flat(old(Stores())), LRangeAll(key));
                var (s2, r2) := Exec(s1, Delete(key));
                && items == r1.items
                && (r1.status == Ok ==> Flat(Stores()) == s2 && ok == (r2.status == Ok))
                && (r1.status != Ok ==> Flat(Stores()) == s1 && !ok)
      ensures !old(clients[Shard(key, |clients|)].connected) && !connectOk ==> !ok && Stores() == old(Stores())
    {
      hide Shard, ExecEntry, Placed, Flat, Exec;
      var client := Dispatch(key, connectOk);
      if client == null {
        return false, [];
      }
      var r := Call(LRangeAll(key), true);
      items := r.items;
      if r.status != Ok {
        return false, items;
      }
      var d := Call(Delete(key), true);
      ok := d.status == Ok;
    }
  }

  // ---- whole runs ----

  function RunFlat(s: Store, cs: seq<Command>): (Store, seq<Reply>) {
    if cs == [] then (s, []) else
    var (t, rs) := RunFlat(s, cs[..|cs| - 1]);
    var (u, r) := Exec(t, cs[|cs| - 1]);
    (u, rs + [r])
  }

  function RunSharded(stores: seq<Store>, cs: seq<Command>): (seq<Store>, seq<Reply>)
    requires |stores| > 0
    ensures |RunSharded(stores, cs).0| == |stores|
  {
    if cs == [] then (stores, []) else
    var (t, rs) := RunSharded(stores, cs[..|cs| - 1]);
    var i := Shard(cs[|cs| - 1].key, |stores|);
    var (u, r) := Exec(t[i], cs[|cs| - 1]);
    (t[i := u], rs + [r])
  }

  lemma {:induction false} RunSpares(s: Store, cs: seq<Command>, key: Key)
    requires forall i :: 0 <= i < |cs| ==> Spares(cs[i], key)
    ensures At(RunFlat(s, cs).0, key) == At(s, key)
  {
    hide Exec, Spares;
    if cs != [] {
      RunSpares(s, cs[..|cs| - 1], key);
      ExecSpares(RunFlat(s, cs[..|cs| - 1]).0, cs[|cs| - 1], key);
    }
  }

  lemma RunOneMore(s: Store, cs: seq<Command>, c: Command)
    ensures RunFlat(s, cs + [c]) ==
            (Exec(RunFlat(s, cs).0, c).0, RunFlat(s, cs).1 + [Exec(RunFlat(s, cs).0, c).1])
  {
    assert (cs + [c])[..|cs|] == cs;
  }

  lemma {:induction false} RunAfter(s: Store, cs: seq<Command>, more: seq<Command>)
    ensures RunFlat(s, cs + more).0 == RunFlat(RunFlat(s, cs).0, more).0
  {
    hide Exec;
    if more == [] {
      assert cs + more == cs;
    } else {
      var n := |more| - 1;
      RunAfter(s, cs, more[..n]);
      assert (cs + more)[..|cs + more| - 1] == cs + more[..n];
    }
  }

  /** For every pool size and every sequence of operations, the pool answers what one store would, and each key stays
      in its own shard. */
  lemma {:induction false} ShardedEqualsFlat(stores: seq<Store>, cs: seq<Command>)
    requires |stores| > 0 && Placed(stores)
    ensures var (after, replies) := RunSharded(stores, cs);
            Placed(after) && (Flat(after), replies) == RunFlat(Flat(stores), cs)
  {
    hide Exec, Shard, Placed, Flat;
    if cs != [] {
      ShardedEqualsFlat(stores, cs[..|cs| - 1]);
      ShardedExec(RunSharded(stores, cs[..|cs| - 1]).0, cs[|cs| - 1]);
    }
  }

  /** The pool gives back what was last set: after any commands, a write, and any commands that spare its key, a read
      answers the value written, byte for byte. */
  lemma LastSetIsRead(stores: seq<Store>, before: seq<Command>, key: Key, v: bytes, between: seq<Command>)
    requires |stores| > 0 && Placed(stores) && key != []
    requires forall i :: 0 <= i < |between| ==> Spares(between[i], key)
    ensures var replies := RunSharded(stores, before + [SetAlways(key, v)] + between + [Get(key)]).1;
            replies != [] && replies[|replies| - 1] == Just(Ok).(text := Some(v))
  {
    hide Exec, Flat, Placed, RunSharded, RunFlat, Spares;
    var cs := before + [SetAlways(key, v)];
    ShardedEqualsFlat(stores, cs + between + [Get(key)]);
    RunOneMore(Flat(stores), before, SetAlways(key, v));
    RunOneMore(Flat(stores), cs + between, Get(key));
    RunAfter(Flat(stores), cs, between);
    RunSpares(RunFlat(Flat(stores), cs).0, between, key);
    GetAfterSet(RunFlat(Flat(stores), before).0, RunFlat(Flat(stores), cs + between).0, key, v);
  }

  lemma GetAfterSet(s: Store, t: Store, key: Key, v: bytes)
    requires key != [] && At(t, key) == At(Exec(s, SetAlways(key, v)).0, key)
    ensures Exec(t, Get(key)).1 == Just(Ok).(text := Some(v))
  {
    SetIsRead(At(s, key), key, v);
  }

  /** The same with the methods: set, then get. */
  method SetThenGet(cache: RedisCache, key: Key, v: bytes, connectOk: bool) returns (stored: Reply, got: Reply)
    requires cache.Valid() && key != []
    modifies cache.clients
    ensures cache.Valid()
    ensures if old(cache.clients[Shard(key, |cache.clients|)].connected) || connectOk
            then stored == Just(Ok) && got == Just(Ok).(text := Some(v))
                 && (forall k :: k != key ==> At(Flat(cache.Stores()), k) == At(Flat(old(cache.Stores())), k))
            else stored == got == Just(ConnErr) && cache.Stores() == old(cache.Stores())
  {
    hide Shard, Placed, Flat, Exec;
    ghost var before := Flat(cache.Stores());
    stored := cache.Call(SetAlways(key, v), connectOk);
    got := cache.Call(Get(key), connectOk);
    SetThenGetFlat(before, key, v);
  }

  lemma SetThenGetFlat(s: Store, key: Key, v: bytes)
    requires key != []
    ensures var (t, stored) := Exec(s, SetAlways(key, v));
            var (u, got) := Exec(t, Get(key));
            && stored == Just(Ok) && got == Just(Ok).(text := Some(v))
            && forall k :: k != key ==> At(u, k) == At(s, k)
  {
    SetIsRead(At(s, key), key, v);
  }
}

/** The growable buffer of core/base/BlockBuffer.h: storage is a whole number of fixed-size blocks. */
module BlockBuffers {
  import opened Arithmetic
  import opened Bytes
  import opened Sums

  // ---- block arithmetic ----

  /** The least number of blocks that hold n bytes. */
  function BlocksFor(n: nat, blockSize: nat): (b: nat)
    requires blockSize > 0
  {
    n / blockSize + if n % blockSize > 0 then 1 else 0
  }

  /** BlocksFor is a ceiling: it is enough, one block less is not, and it meets a cap exactly when n does. */
  lemma BlocksForIsCeiling(n: nat, blockSize: nat, cap: nat)
    requires blockSize > 0
    ensures n <= BlocksFor(n, blockSize) * blockSize
    ensures BlocksFor(n, blockSize) > 0 ==> (BlocksFor(n, blockSize) - 1) * blockSize < n
    ensures BlocksFor(n, blockSize) <= cap <==> n <= cap * blockSize
  {
    var q, r := n / blockSize, n % blockSize;
    assert n == q * blockSize + r;
    assert (q + 1) * blockSize == q * blockSize + blockSize;
    var b := BlocksFor(n, blockSize);
    if b <= cap {
      MulMonotone(b, cap, blockSize);
    } else {
      MulMonotone(cap, b - 1, blockSize);
      assert (b - 1) * blockSize == b * blockSize - blockSize;
    }
  }

  /** Growing by the missing bytes, rounded up to blocks, lands on the ceiling of the new size. */
  lemma GrowthLandsOnCeiling(block: nat, size: nat, extra: nat, blockSize: nat)
    requires blockSize > 0 && size <= block * blockSize < size + extra
    ensures block + BlocksFor(size + extra - block * blockSize, blockSize) == BlocksFor(size + extra, blockSize)
  {
    var missing := size + extra - block * blockSize;
    var q, r := missing / blockSize, missing % blockSize;
    assert missing == q * blockSize + r;
    assert (block + q) * blockSize == block * blockSize + q * blockSize;
    DivisionIsUnique(size + extra, blockSize, block + q, r);
  }

  // ---- the static counters over whole runs ----

  /** One change to the set of live buffers of one instantiation. */
  datatype Event<K> =
    | Create(id: K)
    | Reblock(id: K, block: nat)
    | Destroy(id: K)

  /** The live buffers with their block counts, beside the two static counters. */
  datatype Accounts<K> = Accounts(live: map<K, nat>, current: int, peak: int)

  /** The counters move by the difference in blocks; the peak is looked at only when blocks changed. */
  function Apply<K>(s: Accounts<K>, e: Event<K>): Accounts<K> {
    match e
    case Create(id) =>
      if id in s.live then s else s.(live := s.live[id := 0])
    case Reblock(id, block) =>
      if id !in s.live then s else
      var current := s.current + block - s.live[id];
      Accounts(s.live[id := block], current,
               if block != s.live[id] && current > s.peak then current else s.peak)
    case Destroy(id) =>
      if id !in s.live then s else
      Accounts(s.live - {id}, s.current - s.live[id], s.peak)
  }

  function Run<K>(es: seq<Event<K>>): Accounts<K> {
    if es == [] then Accounts(map[], 0, 0) else Apply(Run(es[..|es| - 1]), es[|es| - 1])
  }

  /** The largest total of live blocks at any moment of a run. */
  ghost function HighWater<K>(es: seq<Event<K>>): int {
    var total := Total(Run(es).live);
    if es == [] then total else
    var before := HighWater(es[..|es| - 1]);
    if total > before then total else before
  }

  /** In every run the current counter is the number of blocks all live buffers hold, and the peak counter is the
      largest value it ever had. */
  lemma {:induction false} CountersAreTotals<K>(es: seq<Event<K>>)
    ensures Run(es).current == Total(Run(es).live)
    ensures Run(es).peak == HighWater(es)
  {
    if es != [] {
      var s, e := Run(es[..|es| - 1]), es[|es| - 1];
      CountersAreTotals(es[..|es| - 1]);
      PeakIsReached(es[..|es| - 1]);
      match e {
        case Create(id) => TotalAfterWrite(s.live, id, 0);
        case Reblock(id, block) => TotalAfterWrite(s.live, id, block);
        case Destroy(id) => TotalAfterRemoval(s.live, id);
      }
    }
  }

  lemma ReblockApplied<K>(s: Accounts<K>, id: K, block: nat)
    requires id in s.live
    ensures var after := Apply(s, Reblock(id, block));
            && after.live == s.live[id := block] && after.live - {id} == s.live - {id}
            && after.current == s.current + block - s.live[id]
            && after.peak == if block != s.live[id] && after.current > s.peak then after.current else s.peak
  {
  }

  lemma {:induction false} PeakIsReached<K>(es: seq<Event<K>>)
    ensures Total(Run(es).live) <= HighWater(es)
  {
  }

  /** The two static counters shared by every buffer of one instantiation, with the trace of what moved them. */
  class BlockCounters {
    var current: int
    var peak: int
    ghost var trace: seq<Event<BlockBuffer>>
    ghost var live: map<BlockBuffer, nat>  // the live buffers with the blocks each holds

    ghost predicate Valid()
      reads this
    {
      Run(trace) == Accounts(live, current, peak)
    }

    constructor ()
      ensures Valid() && live == map[]
    {
      current, peak, trace, live := 0, 0, [], map[];
    }

    ghost method Record(e: Event<BlockBuffer>)
      modifies `trace, `live
      ensures Run(trace) == Apply(old(Run(trace)), e) && live == Run(trace).live
    {
      trace := trace + [e];
      live := Run(trace).live;
      assert trace[..|trace| - 1] == old(trace);
    }

    /** At every moment the counters are the blocks held by the live buffers, now and at most. */
    lemma CountersAreExact()
      requires Valid()
      ensures current == Total(live) <= peak == HighWater(trace)
    {
      CountersAreTotals(trace);
      PeakIsReached(trace);
    }
  }

  class BlockBuffer {
    const blockSize: nat
    const maxBlocks: nat
    const counters: BlockCounters
    var data: array?<byte>
    var size: nat
    var block: nat

    ghost predicate Valid()
      reads this, data
    {
      && 0 < blockSize
      && (data == null <==> block == 0)
      && (data != null ==> data.Length == block * blockSize)
      && size <= block * blockSize
      && block <= maxBlocks
    }

    /** The counters are in order and know this buffer. */
    ghost predicate Accounted()
      reads this, counters
    {
      counters.Valid() && this in counters.live && counters.live[this] == block
    }

    /** What is counted for the other live buffers. */
    ghost function Others(): map<BlockBuffer, nat>
      reads this, counters
    {
      counters.live - {this}
    }

    function Contents(): (s: bytes)
      requires Valid()
      reads this, data
      ensures |s| == size
    {
      if data == null then [] else data[..size]
    }

    function Capacity(): nat
      reads this
    {
      block * blockSize
    }

    function MaxSize(): nat {
      maxBlocks * blockSize
    }

    function FreeSpace(): nat
      requires Valid()
      reads this, data
    {
      Capacity() - size
    }

    lemma CapacityIsBounded()
      requires Valid()
      ensures size <= Capacity() <= MaxSize()
    {
    }

    constructor (blockSize: nat, maxBlocks: nat, counters: BlockCounters)
      requires 0 < blockSize
      modifies counters
      ensures Valid() && Contents() == [] && block == 0 && data == null
      ensures old(counters.Valid()) ==> Accounted() && Others() == old(counters.live) - {this}
      ensures this.blockSize == blockSize && this.maxBlocks == maxBlocks && this.counters == counters
    {
      this.blockSize, this.maxBlocks, this.counters := blockSize, maxBlocks, counters;
      data, size, block := null, 0, 0;
      new;
      counters.Record(Create(this));
    }

    /** Frees the blocks; the buffer is not live any more. */
    method Destroy()
      requires Valid() && Accounted()
      modifies this, counters
      ensures counters.Valid() && counters.live == old(counters.live) - {this}
    {
      Free();
      counters.Record(Event.Destroy(this));
    }

    /** Gives every block back. */
    method Free()
      requires Valid()
      modifies this, counters
      ensures old(Accounted()) ==> Accounted() && Others() == old(Others())
      ensures data == null && block == 0 && size == old(size)
    {
      if block > 0 {
        hide Apply, Run;
        if Accounted() {
          counters.CountersAreExact();
          ReblockApplied(Run(counters.trace), this, 0);
        }
        counters.current := counters.current - block;
        data := null;
        block := 0;
        counters.Record(Reblock(this, 0));
      }
    }

    /** Moves the contents into newBlock freshly allocated blocks and counts them. */
    method Reallocate(newBlock: nat)
      requires Valid() && block < newBlock <= maxBlocks
      modifies this, counters
      ensures Valid() && Contents() == old(Contents()) && size == old(size) && block == newBlock
      ensures fresh(data)
      ensures old(Accounted()) ==> Accounted() && Others() == old(Others())
    {
      hide Apply, Run;
      MulMonotone(block, newBlock, blockSize);
      if Accounted() {
        ReblockApplied(Run(counters.trace), this, newBlock);
      }
      var newData := new byte[newBlock * blockSize];
      if block > 0 {
        forall i | 0 <= i < size {
          newData[i] := data[i];
        }
      }
      assert newData[..size] == Contents();
      counters.current := counters.current + newBlock - block;
      if counters.current > counters.peak {
        counters.peak := counters.current;
      }
      data := newData;
      block := newBlock;
      counters.Record(Reblock(this, newBlock));
    }

    /** mallocOk is the allocator's answer, should it be asked. */
    method IncreaseCapacity(increase: nat, mallocOk: bool) returns (ok: bool)
      requires Valid()
      modifies this, counters
      ensures Valid() && Contents() == old(Contents())
      ensures data != old(data) ==> fresh(data)
      ensures ok <==> increase <= old(FreeSpace()) || (size + increase <= MaxSize() && mallocOk)
      ensures block == if ok && increase > old(FreeSpace()) then BlocksFor(size + increase, blockSize) else old(block)
      ensures ok ==> increase <= FreeSpace()
      ensures old(Accounted()) ==> Accounted() && Others() == old(Others())
    {
      if increase == 0 {
        return true;
      }
      var newBlock := block;
      var free := FreeSpace();
      if free >= increase {
        return true;
      }
      var missing := increase - free;
      newBlock := newBlock + missing / blockSize;
      if missing % blockSize > 0 {
        newBlock := newBlock + 1;
      }
      GrowthLandsOnCeiling(block, size, increase, blockSize);
      BlocksForIsCeiling(size + increase, blockSize, maxBlocks);
      BlocksForIsCeiling(size + increase, blockSize, block);
      if newBlock > maxBlocks || !mallocOk {
        return false;
      }
      Reallocate(newBlock);
      return true;
    }

    /** Succeeds exactly when the bytes fit (and, if blocks are needed, malloc gives them); a failure changes nothing. */
    method Append(app: bytes, mallocOk: bool) returns (ok: bool)
      requires Valid()
      modifies this, data, counters
      ensures Valid()
      ensures data != old(data) ==> fresh(data)
      ensures ok <==> |app| <= old(FreeSpace()) || (old(size) + |app| <= MaxSize() && mallocOk)
      ensures Contents() == if ok then old(Contents()) + app else old(Contents())
      ensures block == if ok && |app| > old(FreeSpace()) then BlocksFor(size, blockSize) else old(block)
      ensures old(Accounted()) ==> Accounted() && Others() == old(Others())
    {
      if |app| == 0 {
        return true;
      }
      ok := IncreaseCapacity(|app|, mallocOk);
      if ok {
        MemMove(size, app);
        size := size + |app|;
        assert data[..size] == old(Contents()) + app;
      }
    }

    /** Copies src over data[at..]. */
    method MemMove(at: nat, src: bytes)
      requires data != null && at + |src| <= data.Length
      modifies data
      ensures data[..] == old(data[..at]) + src + old(data[at + |src|..])
    {
      forall i | 0 <= i < |src| {
        data[at + i] := src[i];
      }
    }

    /** Growing pads with c; shrinking truncates and keeps the blocks. */
    method Resize(n: nat, c: byte, mallocOk: bool) returns (ok: bool)
      requires Valid()
      modifies this, data, counters
      ensures Valid()
      ensures data != old(data) ==> fresh(data)
      ensures ok <==> n <= old(Capacity()) || (n <= MaxSize() && mallocOk)
      ensures !ok ==> Contents() == old(Contents())
      ensures ok && n <= old(size) ==> Contents() == old(Contents())[..n]
      ensures ok && n > old(size) ==> Contents() == old(Contents()) + seq(n - old(size), _ => c)
      ensures block == if ok && n > old(Capacity()) then BlocksFor(n, blockSize) else old(block)
      ensures old(Accounted()) ==> Accounted() && Others() == old(Others())
    {
      if n > size {
        var len := n - size;
        var grown := IncreaseCapacity(len, mallocOk);
        if !grown {
          return false;
        }
        MemMove(size, seq(len, _ => c));
        assert data[..n] == old(Contents()) + seq(len, _ => c);
      }
      size := n;
      return true;
    }

    /** Writes rep over the contents from pos on.  Past the end it appends.  When rep reaches the end, the tail from
        pos on is dropped before the append is tried, so a failing append leaves the contents truncated at pos. */
    method Replace(pos: nat, rep: bytes, mallocOk: bool) returns (ok: bool)
      requires Valid()
      modifies this, data, counters
      ensures Valid()
      ensures data != old(data) ==> fresh(data)
      ensures var kept := if pos < old(size) <= pos + |rep| then pos else old(size);
              ok <==> pos + |rep| < old(size) || kept + |rep| <= old(Capacity()) || (kept + |rep| <= MaxSize() && mallocOk)
      ensures pos >= old(size) ==> Contents() == if ok then old(Contents()) + rep else old(Contents())
      ensures pos < old(size) <= pos + |rep| ==> Contents() == old(Contents())[..pos] + if ok then rep else []
      ensures pos + |rep| < old(size) ==> Contents() == old(Contents())[..pos] + rep + old(Contents())[pos + |rep|..]
      ensures old(Accounted()) ==> Accounted() && Others() == old(Others())
    {
      ghost var before := Contents();
      if pos >= size {
        ok := Append(rep, mallocOk);
        return;
      }
      if pos + |rep| >= size {
        size := pos;
        assert Contents() == before[..pos];
        ok := Append(rep, mallocOk);
        return;
      }
      if |rep| > 0 {
        MemMove(pos, rep);
      }
      assert Contents() == before[..pos] + rep + before[pos + |rep|..];
      return true;
    }

    /** Moves count bytes down from at + n to at. */
    method MemMoveDown(at: nat, n: nat, count: nat)
      requires data != null && at + n + count <= data.Length
      modifies data
      ensures data[..at + count] == old(data[..at]) + old(data[at + n..at + n + count])
    {
      forall i | at <= i < at + count {
        data[i] := data[i + n];
      }
    }

    /** Moves what follows the n bytes at pos down over them. */
    method CloseGap(pos: nat, n: nat)
      requires data != null && size <= data.Length && pos + n < size
      modifies this`size, data
      ensures size == old(size) - n
      ensures data[..size] == old(data[..size])[..pos] + old(data[..size])[pos + n..]
    {
      CutOut(data[..], data[..size], pos, n);
      size := size - n;
      MemMoveDown(pos, n, size - pos);
    }

    method EraseBytes(pos: nat, n: nat)
      requires Valid() && pos <= size
      modifies this`size, data
      ensures Valid()
      ensures Contents() == old(Contents())[..pos] + if n >= old(size) - pos then [] else old(Contents())[pos + n..]
    {
      var m := size - pos;
      if n >= m {
        Truncated(Contents(), pos);
        size := pos;
      } else {
        CloseGap(pos, n);
      }
    }

    /** Removes n bytes at pos (everything from pos on if fewer remain); an emptied buffer frees its blocks unless hold. */
    method Erase(pos: nat, n: nat, hold: bool)
      requires Valid() && pos <= size
      modifies this, data, counters
      ensures Valid()
      ensures data != old(data) ==> data == null
      ensures Contents() == old(Contents())[..pos] + if n >= old(size) - pos then [] else old(Contents())[pos + n..]
      ensures block == if size == 0 && !hold then 0 else old(block)
      ensures old(Accounted()) ==> Accounted() && Others() == old(Others())
    {
      EraseBytes(pos, n);
      if size == 0 && !hold {
        Free();
      }
    }
  }

  lemma CutOut(all: bytes, contents: bytes, pos: nat, n: nat)
    requires contents <= all && pos + n < |contents|
    ensures all[..pos] == contents[..pos] && all[pos + n..|contents|] == contents[pos + n..]
  {
  }

  lemma Truncated(contents: bytes, pos: nat)
    requires pos <= |contents|
    ensures contents[..pos] + [] == contents[..pos]
  {
  }

  /** Beside another buffer that shares its counters, an accounted buffer is one of the others. */
  lemma CountedAmongOthers(b: BlockBuffer, other: BlockBuffer)
    requires b != other
    ensures b.counters == other.counters && other.Accounted() ==>
              other in b.Others() && b.Others()[other] == other.block
  {
  }

  /** So what happens to one buffer, its own accounts and those of the others kept, leaves it accounted for. */
  lemma StaysAccounted(b: BlockBuffer, other: BlockBuffer, others: map<BlockBuffer, nat>)
    requires b != other
    requires b.Accounted() && b.Others() == others
    ensures b.counters == other.counters && other in others && others[other] == other.block ==> other.Accounted()
  {
    if other in b.Others() {
      assert b.Others()[other] == b.counters.live[other];
    }
  }
}

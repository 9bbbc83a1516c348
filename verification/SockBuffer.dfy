/** The socket, seen from above, and core/base/SockBuffer.h: a block buffer filled from and drained into a socket that
    moves any number of bytes it likes.  The filter is the identity, as it is without TLS. */
module SockBuffers {
  import opened Arithmetic
  import opened Bytes
  import opened BlockBuffers

  /** What the kernel answers to a send: any part of the bytes, would-block or interrupted, or a real error. */
  datatype SendAnswer = Takes(n: nat) | Again | Broken

  /** What the kernel has for a recv: bytes (none: the peer closed), nothing yet, or a real error. */
  datatype RecvAnswer = Holds(data: bytes) | NotYet | Failed

  datatype IoResult = Moved(n: nat) | Threw

  class Socket {
    var sent: bytes          // every byte the kernel took, in order
    var connected: bool
    var shutdownSend: bool
    var shutdownRecv: bool
    var selevent: bv8        // events this socket is selected for
    var selected: bool

    constructor (connected: bool)
      ensures sent == [] && this.connected == connected && !shutdownSend && !shutdownRecv
      ensures selevent == 0 && !selected
    {
      sent, this.connected, shutdownSend, shutdownRecv, selevent, selected := [], connected, false, false, 0, false;
    }

    /** send: an ignorable error counts as zero bytes sent, any other is thrown. */
    method Send(data: bytes, kernel: SendAnswer) returns (r: IoResult)
      requires kernel.Takes? ==> kernel.n <= |data|
      modifies this`sent
      ensures r == match kernel case Takes(n) => Moved(n) case Again => Moved(0) case Broken => Threw
      ensures sent == old(sent) + if r.Moved? then data[..r.n] else []
    {
      match kernel {
        case Takes(n) =>
          sent := sent + data[..n];
          return Moved(n);
        case Again => return Moved(0);
        case Broken => return Threw;
      }
    }
  }

  datatype PumpResult = Full | Read(n: nat) | RecvThrew(again: bool)

  datatype WriteResult = Written | Overflow(sentPart: nat) | OverflowAll | SendThrew

  /** The part of a message that the socket is given at once: none while others wait. */
  function AtOnce(waiting: nat, kernel: SendAnswer): nat {
    if waiting == 0 && kernel.Takes? then kernel.n else 0
  }

  /** How a write of a message must end, with some bytes waiting and room for so many: it throws exactly when the socket
      is tried and broken, and otherwise everything is written exactly when what the socket did not take at once fits. */
  ghost predicate Answers(r: WriteResult, waiting: nat, room: nat, msg: bytes, kernel: SendAnswer) {
    && (r == SendThrew <==> msg != [] && waiting == 0 && kernel.Broken?)
    && (r != SendThrew ==> (r == Written <==> waiting + |msg| <= room + AtOnce(waiting, kernel)))
    && (r.Overflow? ==> r.sentPart == AtOnce(waiting, kernel))
    && (r == OverflowAll ==> AtOnce(waiting, kernel) == 0)
  }

  class SockBuffer {
    const bb: BlockBuffer

    ghost predicate Valid()
      reads this, bb, bb.data
    {
      bb.Valid()
    }

    function Contents(): bytes
      requires bb.Valid()
      reads this, bb, bb.data
    {
      bb.Contents()
    }

    constructor (blockSize: nat, maxBlocks: nat, counters: BlockCounters)
      requires 0 < blockSize
      modifies counters
      ensures Valid() && fresh(bb) && bb.data == null && Contents() == []
      ensures bb.blockSize == blockSize && bb.maxBlocks == maxBlocks && bb.counters == counters
      ensures old(counters.Valid()) ==> bb.Accounted() && bb.Others() == old(counters.live) - {bb}
    {
      var buffer := new BlockBuffer(blockSize, maxBlocks, counters);
      bb := buffer;
    }

    /** How much the next read can take: what is free, and a block more when less than half a block is, the maximum is not
        reached and memory is to be had. */
    function Room(mallocOk: bool): nat
      requires Valid()
      reads this, bb, bb.data
    {
      bb.FreeSpace() + if mallocOk && bb.FreeSpace() < bb.blockSize / 2 && bb.block < bb.maxBlocks then bb.blockSize else 0
    }

    /** With memory, a read can take half a block at least until the last block is in use, and never as much as one block
        and a half more than that leaves free. */
    lemma RoomIsBounded()
      requires Valid()
      ensures bb.block < bb.maxBlocks ==> bb.blockSize / 2 <= Room(true)
      ensures Room(true) == bb.FreeSpace() || Room(true) < bb.blockSize + bb.blockSize / 2
    {
    }

    /** Grows by a block when less than half a block is free and the maximum is not reached. */
    method MakeRoom(mallocOk: bool)
      requires Valid()
      modifies bb, bb.counters
      ensures Valid() && (bb.data != old(bb.data) ==> fresh(bb.data))
      ensures Contents() == old(Contents()) && bb.FreeSpace() == old(Room(mallocOk))
      ensures mallocOk && bb.blockSize > 1 ==> (bb.FreeSpace() == 0 <==> bb.size == bb.MaxSize())
      ensures old(bb.Accounted()) ==> bb.Accounted() && bb.Others() == old(bb.Others())
    {
      bb.CapacityIsBounded();
      if bb.FreeSpace() < bb.blockSize / 2 && bb.block < bb.maxBlocks {
        MulMonotone(bb.block + 1, bb.maxBlocks, bb.blockSize);
        OneBlockMore(bb.size, bb.blockSize, bb.block);
        var grown := bb.IncreaseCapacity(bb.blockSize, mallocOk);
        bb.CapacityIsBounded();
      }
    }

    /** Makes room, then takes what the socket holds, as far as it fits.  With blocks to be had there is no room only
        if the buffer is at its maximum. */
    method Pump(kernel: RecvAnswer, mallocOk: bool) returns (r: PumpResult)
      requires Valid()
      modifies bb, bb.data, bb.counters
      ensures Valid() && (bb.data != old(bb.data) ==> fresh(bb.data))
      ensures r.Read? ==> kernel.Holds? && r.n <= |kernel.data|
                          && (r.n == 0 <==> kernel.data == []) && Contents() == old(Contents()) + kernel.data[..r.n]
      ensures r.Read? ==> r.n == |kernel.data| || r.n == old(Room(mallocOk)) < |kernel.data|
      ensures !r.Read? ==> Contents() == old(Contents())
      ensures r == Full <==> old(Room(mallocOk)) == 0
      ensures r == RecvThrew(true) <==> r != Full && kernel.NotYet?
      ensures r == RecvThrew(false) <==> r != Full && kernel.Failed?
      ensures mallocOk && bb.blockSize > 1 ==> (r == Full <==> old(bb.size) == bb.MaxSize())
      ensures old(bb.Accounted()) ==> bb.Accounted() && bb.Others() == old(bb.Others())
    {
      MakeRoom(mallocOk);
      var room := bb.FreeSpace();
      if room == 0 {
        return Full;
      }
      match kernel {
        case NotYet => return RecvThrew(true);
        case Failed => return RecvThrew(false);
        case Holds(data) =>
          var n := if |data| < room then |data| else room;
          if n > 0 {
            Deposit(data[..n]);
          } else {
            assert data[..0] == [];
          }
          return Read(n);
      }
    }

    /** recv writes at the tail; the size is then moved up. */
    method Deposit(data: bytes)
      requires Valid() && 0 < |data| <= bb.FreeSpace()
      modifies bb, bb.data
      ensures Valid() && bb.data == old(bb.data) && bb.block == old(bb.block)
      ensures Contents() == old(Contents()) + data
      ensures old(bb.Accounted()) ==> bb.Accounted() && bb.Others() == old(bb.Others())
    {
      var n := bb.size + |data|;
      ghost var before := bb.data[..bb.size];
      bb.MemMove(bb.size, data);
      assert bb.data[..][..n] == before + data;
      bb.size := n;
    }

    /** How many bytes may wait: what the blocks held have room for, or, with memory to be had, the maximum. */
    function Limit(mallocOk: bool): nat
      reads this, bb
    {
      if mallocOk then bb.MaxSize() else bb.Capacity()
    }

    /** The write of a connection that is not connected: append only. */
    method Write(msg: bytes, mallocOk: bool) returns (r: WriteResult)
      requires Valid()
      modifies bb, bb.data, bb.counters
      ensures Valid() && (bb.data != old(bb.data) ==> fresh(bb.data))
      ensures r == Written || r == OverflowAll
      ensures r == Written <==> old(bb.size) + |msg| <= old(Limit(mallocOk))
      ensures Contents() == if r == Written then old(Contents()) + msg else old(Contents())
      ensures old(bb.Accounted()) ==> bb.Accounted() && bb.Others() == old(bb.Others())
    {
      bb.CapacityIsBounded();
      if |msg| == 0 {
        return Written;
      }
      var ok := bb.Append(msg, mallocOk);
      return if ok then Written else OverflowAll;
    }

    /** The write of a connected connection: try the socket if nothing waits, keep the rest.  The socket's bytes
        followed by the waiting bytes grow by the whole message, by nothing, or, when the rest overflows an empty
        buffer, by the part already sent. */
    method WriteTo(so: Socket, msg: bytes, kernel: SendAnswer, mallocOk: bool) returns (r: WriteResult)
      requires Valid()
      requires kernel.Takes? ==> kernel.n <= |msg|
      modifies so`sent, bb, bb.data, bb.counters
      ensures Valid() && (bb.data != old(bb.data) ==> fresh(bb.data))
      ensures r.Overflow? ==> old(Contents()) == [] && 0 < r.sentPart < |msg|
      ensures Answers(r, old(bb.size), old(Limit(mallocOk)), msg, kernel)
      ensures so.sent == old(so.sent) + msg[..AtOnce(old(bb.size), kernel)]
      ensures so.sent + Contents() == old(so.sent + Contents()) + Accepted(r, msg)
      ensures r == OverflowAll || r == SendThrew ==> so.sent == old(so.sent)
      ensures r != Written ==> Contents() == old(Contents())
      ensures old(bb.Accounted()) ==> bb.Accounted() && bb.Others() == old(bb.Others())
    {
      hide BlockBuffer.Accounted, BlockBuffer.Others;
      bb.CapacityIsBounded();
      if |msg| == 0 {
        return Written;
      }
      var nsent := 0;
      if bb.size == 0 {
        var io := so.Send(msg, kernel);
        if io.Threw? {
          return SendThrew;
        }
        nsent := io.n;
      }
      ghost var sent, waiting := old(so.sent), Contents();
      assert so.sent == sent + msg[..nsent];
      Rejoin(sent, msg, nsent);
      var ok := bb.Append(msg[nsent..], mallocOk);
      assert ok ==> so.sent + Contents() == sent + waiting + msg by {
        JoinedAfter(sent, waiting, msg, nsent);
      }
      if !ok {
        return if nsent > 0 then Overflow(nsent) else OverflowAll;
      }
      return Written;
    }

    /** Offers everything that waits to the socket and drops what it took from the front. */
    method Flush(so: Socket, kernel: SendAnswer) returns (r: IoResult)
      requires Valid()
      requires kernel.Takes? ==> kernel.n <= bb.size
      modifies so`sent, bb, bb.data, bb.counters
      ensures Valid() && (bb.data != old(bb.data) ==> bb.data == null)
      ensures so.sent + Contents() == old(so.sent + Contents()) && old(so.sent) <= so.sent
      ensures r == match kernel case Takes(n) => Moved(n) case Again => Moved(0) case Broken => Threw
      ensures |so.sent| == |old(so.sent)| + if kernel.Takes? then kernel.n else 0
      ensures r.Moved? ==> bb.block == if bb.size == 0 then 0 else old(bb.block)
      ensures old(bb.Accounted()) ==> bb.Accounted() && bb.Others() == old(bb.Others())
    {
      var before := Contents();
      ghost var sent := so.sent;
      r := so.Send(before, kernel);
      if r.Moved? {
        bb.Erase(0, r.n, false);
        assert Contents() == before[r.n..];
        Rejoin(sent, before, r.n);
      }
    }
  }

  /** Less than half a block free, a block more is asked for and given. */
  lemma OneBlockMore(size: nat, blockSize: nat, block: nat)
    requires 0 < blockSize && size <= block * blockSize && block * blockSize - size < blockSize / 2
    ensures BlocksFor(size + blockSize, blockSize) == block + 1
    ensures (block + 1) * blockSize == block * blockSize + blockSize
  {
    BlocksForIsCeiling(size + blockSize, blockSize, block + 1);
    BlocksForIsCeiling(size + blockSize, blockSize, block);
  }

  lemma Rejoin(sent: bytes, data: bytes, n: nat)
    requires n <= |data|
    ensures sent + data[..n] + data[n..] == sent + data
  {
  }

  lemma JoinedAfter(sent: bytes, waiting: bytes, msg: bytes, n: nat)
    requires n <= |msg| && (n == 0 || waiting == [])
    ensures sent + msg[..n] + (waiting + msg[n..]) == sent + waiting + msg
  {
  }

  /** What a write adds to the outgoing byte stream. */
  function Accepted(r: WriteResult, msg: bytes): bytes
    requires r.Overflow? ==> r.sentPart <= |msg|
  {
    match r
    case Written => msg
    case Overflow(sentPart) => msg[..sentPart]
    case OverflowAll => []
    case SendThrew => []
  }
}

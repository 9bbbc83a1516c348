/** A TCP connection of core/conn/Connection.cpp: two socket buffers, the socket, its selected events and the frame
    consumer.  A method that hands the connection to its event handler's onClose, onError or onInitiativeClose erases
    it: closed is set and no method is called any more. */
module Connections {
  import opened Bytes
  import opened BlockBuffers
  import opened SockBuffers
  import opened EventHandlers
  import opened Frames
  import opened JsonConsumers
  import opened JsonSenders

  // Buffer8x9k and Buffer8x128k, one and the same instantiation
  const BUFFER_BLOCK_SIZE := 0x2000
  const BUFFER_MAX_BLOCKS := 0x400

  /** The outgoing side: the bytes the socket took and the bytes that wait. */
  datatype Outgoing = Outgoing(taken: bytes, waiting: bytes)

  ghost predicate Extends(o: Outgoing, o': Outgoing, more: bytes) {
    o.taken <= o'.taken && o'.taken + o'.waiting == o.taken + o.waiting + more
  }

  /** The input and the output buffer of a connection, of one instantiation and therefore with one pair of counters. */
  method NewBuffers(counters: BlockCounters) returns (i: SockBuffer, o: SockBuffer)
    modifies counters
    ensures fresh(i.bb) && fresh(o.bb) && i.bb != o.bb && i.bb.Valid() && o.bb.Valid()
    ensures i.bb.data == null && o.bb.data == null && i.Contents() == [] && o.Contents() == []
    ensures i.bb.blockSize == BUFFER_BLOCK_SIZE == o.bb.blockSize
    ensures i.bb.maxBlocks == BUFFER_MAX_BLOCKS == o.bb.maxBlocks
    ensures i.bb.counters == counters == o.bb.counters
    ensures old(counters.Valid()) ==>
              && i.bb.Accounted() && o.bb.Accounted()
              && counters.live - {i.bb, o.bb} == old(counters.live) - {i.bb, o.bb}
  {
    i := new SockBuffer(BUFFER_BLOCK_SIZE, BUFFER_MAX_BLOCKS, counters);
    label First:
    ghost var before := counters.live;
    o := new SockBuffer(BUFFER_BLOCK_SIZE, BUFFER_MAX_BLOCKS, counters);
    if old(counters.Valid()) {
      StillCounted(before, counters.live, i.bb, o.bb);
      assert counters.live - {i.bb, o.bb} == counters.live - {o.bb} - {i.bb};
      assert before - {i.bb, o.bb} == before - {i.bb} - {o.bb} == before - {o.bb} - {i.bb};
      assert old(counters.live) - {i.bb, o.bb} == old(counters.live) - {i.bb} - {o.bb};
    }
  }

  /** What an erase at the front leaves. */
  lemma FrontErased(c: bytes, n: nat)
    requires n <= |c|
    ensures c[..0] + (if n >= |c| - 0 then [] else c[0 + n..]) == c[n..]
  {
  }

  /** A write that does not try the socket. */
  lemma QueuedOnly(sent: bytes, before: bytes, r: WriteResult, msg: bytes, room: nat)
    requires r == Written || r == OverflowAll
    requires r == Written <==> |before| + |msg| <= room
    ensures Answers(r, |before|, room, msg, Again) && sent + msg[..AtOnce(|before|, Again)] == sent
    ensures sent + (if r == Written then before + msg else before) == sent + before + Accepted(r, msg)
  {
  }

  lemma StillCounted(before: map<BlockBuffer, nat>, after: map<BlockBuffer, nat>, b: BlockBuffer, o: BlockBuffer)
    requires b in before && b != o && after - {o} == before - {o}
    ensures b in after && after[b] == before[b]
  {
    assert b in before - {o} && b in after - {o};
  }

  class Connection {
    const input: SockBuffer
    const output: SockBuffer
    const socket: Socket
    const epoll: EventEpoll
    const consumer: JsonProtoConsumer
    var enabled: bool
    var end: End       // why the frame consumer stopped, if it did
    var closed: bool

    ghost predicate Buffers()
      reads input, output, input.bb, output.bb, input.bb.data, output.bb.data
    {
      && input.bb != output.bb
      && (input.bb.data != null ==> input.bb.data != output.bb.data)
      && input.bb.Valid() && output.bb.Valid()
      && input.bb.blockSize == BUFFER_BLOCK_SIZE == output.bb.blockSize
      && input.bb.maxBlocks == BUFFER_MAX_BLOCKS == output.bb.maxBlocks
    }

    /** While bytes wait, the socket is selected for writing and the kernel knows: otherwise nobody would ever flush
        them.  A connection still connecting is always selected for writing. */
    ghost predicate WriteInterest()
      reads output, output.bb, output.bb.data, socket, epoll
    {
      && InterestAgrees(socket, epoll)
      && socket in epoll.sockets
      && !socket.shutdownSend && !socket.shutdownRecv
      && (!socket.connected || output.bb.size > 0 ==> Selects(socket.selevent, EVENT_WRITE))
    }

    ghost predicate Valid()
      reads input, output, input.bb, output.bb, input.bb.data, output.bb.data
      reads this, socket, epoll
    {
      && Buffers()
      && WriteInterest()
      && Selects(socket.selevent, EVENT_READ)
      && (end != NeedMore ==> closed)
    }

    /** Both buffers are counted as what they hold. */
    ghost predicate Accounted()
      reads input, output, input.bb, output.bb, input.bb.counters, output.bb.counters
    {
      input.bb.Accounted() && output.bb.Accounted()
    }

    ghost function Out(): Outgoing
      requires output.bb.Valid()
      reads output, output.bb, output.bb.data, socket
    {
      Outgoing(socket.sent, output.Contents())
    }

    ghost function Receiving(): Receiver
      requires input.bb.Valid()
      reads this, input, input.bb, input.bb.data, consumer
    {
      Receiver(input.Contents(), consumer.seen, end)
    }

    /** Selects for an event, for writing if that is needed. */
    method Select(remove: bv8, add: bv8)
      requires InterestAgrees(socket, epoll) && !socket.shutdownSend && !socket.shutdownRecv
      requires Selects(add, EVENT_READ) || Selects(add, EVENT_WRITE)
      requires !socket.connected || output.bb.size > 0 ==> Selects(add, EVENT_WRITE)
      modifies socket`selevent, socket`selected, epoll
      ensures WriteInterest()
      ensures SelectedAfter(old(socket.selevent), remove, add, false, false, socket.selevent)
    {
      hide Selects, Updated, Allowed;
      EventBits();
      AddEvent(socket, epoll, remove, add);
    }

    /** A connection taken from the acceptor: connected, selected for reading. */
    constructor Accept(service: Handler, epoll: EventEpoll, counters: BlockCounters)
      modifies epoll, counters
      ensures Valid() && !closed && enabled && socket.connected && !Selects(socket.selevent, EVENT_WRITE)
      ensures fresh(socket) && fresh(consumer) && fresh(input.bb) && fresh(output.bb) && this.epoll == epoll
      ensures Out() == Outgoing([], []) && Receiving() == NEW_RECEIVER && consumer.service == service
      ensures old(counters.Valid()) ==> Accounted()
      ensures old(counters.Valid()) ==>
                counters.live - {input.bb, output.bb} == old(counters.live) - {input.bb, output.bb}
    {
      hide Selects, WriteInterest, InterestAgrees, BlockBuffer.Accounted, BlockBuffer.Contents;
      var i, o := NewBuffers(counters);
      input, output := i, o;
      socket := new Socket(true);
      consumer := new JsonProtoConsumer(service);
      this.epoll := epoll;
      enabled, end, closed := true, NeedMore, false;
      new;
      EventBits();
      UnknownAgrees(socket, epoll);
      Select(EVENT_NONE, EVENT_READ);
    }

    /** A connection to another node: connected at once, or selected for reading and writing until it is. */
    constructor Connect(immediately: bool, service: Handler, epoll: EventEpoll, counters: BlockCounters)
      modifies epoll, counters
      ensures Valid() && !closed && enabled && socket.connected == immediately
      ensures Selects(socket.selevent, EVENT_WRITE) <==> !immediately
      ensures fresh(socket) && fresh(consumer) && fresh(input.bb) && fresh(output.bb) && this.epoll == epoll
      ensures Out() == Outgoing([], []) && Receiving() == NEW_RECEIVER && consumer.service == service
      ensures old(counters.Valid()) ==> Accounted()
      ensures old(counters.Valid()) ==>
                counters.live - {input.bb, output.bb} == old(counters.live) - {input.bb, output.bb}
    {
      hide Selects, WriteInterest, InterestAgrees, BlockBuffer.Accounted, BlockBuffer.Contents;
      var i, o := NewBuffers(counters);
      input, output := i, o;
      socket := new Socket(immediately);
      consumer := new JsonProtoConsumer(service);
      this.epoll := epoll;
      enabled, end, closed := true, NeedMore, false;
      new;
      EventBits();
      UnknownAgrees(socket, epoll);
      Select(if immediately then EVENT_ALL else EVENT_NONE, if immediately then EVENT_READ else EVENT_RW);
    }

    /** What the socket says to a send: one that is not connected is not asked. */
    function Asked(kernel: SendAnswer): SendAnswer
      reads socket
    {
      if socket.connected then kernel else Again
    }

    /** The write of sendBin: through the socket if it is connected, else into the buffer only. */
    method WriteOut(data: bytes, kernel: SendAnswer, mallocOk: bool) returns (r: WriteResult)
      requires Buffers()
      requires kernel.Takes? ==> kernel.n <= |data|
      modifies socket`sent, output.bb, output.bb.data, output.bb.counters
      ensures Buffers() && (output.bb.data != old(output.bb.data) ==> fresh(output.bb.data))
      ensures r.Overflow? ==> 0 < r.sentPart < |data|
      ensures Answers(r, old(output.bb.size), old(output.Limit(mallocOk)), data, Asked(kernel))
      ensures Out().taken == old(Out().taken) + data[..AtOnce(old(output.bb.size), Asked(kernel))]
      ensures Extends(old(Out()), Out(), Accepted(r, data))
      ensures r == OverflowAll || r == SendThrew ==> Out() == old(Out())
      ensures r != Written ==> output.Contents() == old(output.Contents())
      ensures old(output.bb.Accounted()) ==> output.bb.Accounted() && output.bb.Others() == old(output.bb.Others())
      ensures old(Accounted()) ==> Accounted()
    {
      hide BlockBuffer.Accounted, BlockBuffer.Others, BlockBuffer.Contents, Accepted, Answers, AtOnce, SockBuffer.Limit;
      ghost var others, room := output.bb.Others(), output.Limit(mallocOk);
      CountedAmongOthers(output.bb, input.bb);
      if socket.connected {
        r := output.WriteTo(socket, data, kernel, mallocOk);
      } else {
        ghost var before := output.Contents();
        r := output.Write(data, mallocOk);
        QueuedOnly(socket.sent, before, r, data, room);
      }
      assert old(Accounted()) ==> Accounted() by {
        if output.bb.Accounted() && output.bb.Others() == others {
          StaysAccounted(output.bb, input.bb, others);
        }
      }
    }

    /** Queues bytes for the peer.  The outgoing stream grows by what the result says was accepted: everything, nothing,
        or, when the unsent rest overflows an empty buffer, the part the socket had taken. */
    method SendBin(data: bytes, kernel: SendAnswer, mallocOk: bool) returns (r: WriteResult)
      requires Valid() && !closed
      requires kernel.Takes? ==> kernel.n <= |data|
      modifies socket, epoll, output.bb, output.bb.data, output.bb.counters
      ensures Valid() && (output.bb.data != old(output.bb.data) ==> fresh(output.bb.data))
      ensures socket.connected == old(socket.connected)
      ensures r.Overflow? ==> 0 < r.sentPart < |data|
      ensures Extends(old(Out()), Out(), if enabled then Accepted(r, data) else [])
      ensures if enabled
              then Answers(r, old(output.bb.size), old(output.Limit(mallocOk)), data, old(Asked(kernel)))
                   && Out().taken == old(Out().taken) + data[..AtOnce(old(output.bb.size), old(Asked(kernel)))]
              else r == Written
      ensures !enabled || r == OverflowAll || r == SendThrew ==> Out() == old(Out())
      ensures Selects(socket.selevent, EVENT_WRITE) <==> old(Selects(socket.selevent, EVENT_WRITE)) || output.bb.size > 0
      ensures old(output.bb.Accounted()) ==> output.bb.Accounted() && output.bb.Others() == old(output.bb.Others())
      ensures old(Accounted()) ==> Accounted()
    {
      hide Selects, BlockBuffer.Accounted, BlockBuffer.Others, BlockBuffer.Contents, Accepted;
      r := Written;
      if enabled {
        r := WriteOut(data, kernel, mallocOk);
        if socket.connected && r == Written && output.bb.size > 0 {
          EventBits();
          Select(EVENT_NONE, EVENT_WRITE);
        }
      }
    }

    /** AbstractConn::send: packs and queues. */
    method Send(sender: JsonSender, kernel: SendAnswer, mallocOk: bool) returns (r: WriteResult)
      requires Valid() && !closed
      requires sender.Valid() && !sender.raised
      requires sender.pb != output.bb && sender.pb != input.bb
      requires sender.pb.data != output.bb.data && (sender.pb.data != null ==> sender.pb.data != input.bb.data)
      requires kernel.Takes? ==> kernel.n <= sender.pb.size
      modifies sender.pb, sender.pb.data, sender.pb.counters
      modifies socket, epoll, output.bb, output.bb.data, output.bb.counters
      ensures Valid() && (output.bb.data != old(output.bb.data) ==> fresh(output.bb.data))
      ensures sender.pb.Valid() && sender.pb.Contents() == Pack(sender.session, Message(sender.uri, old(sender.Body())))
      ensures r.Overflow? ==> 0 < r.sentPart < |sender.pb.Contents()|
      ensures Extends(old(Out()), Out(), if enabled then Accepted(r, sender.pb.Contents()) else [])
      ensures var packed := sender.pb.Contents();
              if enabled
              then Answers(r, old(output.bb.size), old(output.Limit(mallocOk)), packed, old(Asked(kernel)))
                   && Out().taken == old(Out().taken) + packed[..AtOnce(old(output.bb.size), old(Asked(kernel)))]
              else r == Written && Out() == old(Out())
      ensures sender.pb.counters != output.bb.counters && old(output.bb.Accounted()) ==>
                output.bb.Accounted() && output.bb.Others() == old(output.bb.Others())
      ensures sender.pb.counters != output.bb.counters && old(sender.pb.Accounted()) ==>
                sender.pb.Accounted() && sender.pb.Others() == old(sender.pb.Others())
      ensures sender.pb.counters != input.bb.counters && sender.pb.counters != output.bb.counters && old(Accounted()) ==>
                Accounted()
    {
      hide Pack, WriteInterest, Extends;
      sender.EndPack();
      r := SendBin(sender.pb.Contents(), kernel, mallocOk);
    }

    /** The flush of onConnected and onWrite. */
    method FlushOut(kernel: SendAnswer) returns (r: IoResult)
      requires Buffers()
      requires kernel.Takes? ==> kernel.n <= output.bb.size
      modifies socket`sent, output.bb, output.bb.data, output.bb.counters
      ensures Buffers() && (output.bb.data != old(output.bb.data) ==> output.bb.data == null)
      ensures Extends(old(Out()), Out(), [])
      ensures r.Threw? <==> kernel.Broken?
      ensures |Out().taken| == |old(Out()).taken| + if kernel.Takes? then kernel.n else 0
      ensures |Out().waiting| == output.bb.size
      ensures r.Moved? ==> output.bb.block == if output.bb.size == 0 then 0 else old(output.bb.block)
      ensures old(output.bb.Accounted()) ==> output.bb.Accounted() && output.bb.Others() == old(output.bb.Others())
      ensures old(Accounted()) ==> Accounted()
    {
      hide BlockBuffer.Accounted, BlockBuffer.Others;
      ghost var others := output.bb.Others();
      CountedAmongOthers(output.bb, input.bb);
      r := output.Flush(socket, kernel);
      if output.bb.Accounted() && output.bb.Others() == others {
        StaysAccounted(output.bb, input.bb, others);
      }
    }

    /** The outcome of a connect in progress, or its timeout, arrives.  Bytes queued while connecting are flushed; an
        exception of that flush is not caught here and leaves the connection selected for writing as it was. */
    method OnConnected(connectOk: bool, kernel: SendAnswer) returns (threw: bool)
      requires Valid() && !closed && !socket.connected
      requires kernel.Takes? ==> kernel.n <= output.bb.size
      modifies this`closed, socket, epoll, output.bb, output.bb.data, output.bb.counters
      ensures Valid() && (output.bb.data != old(output.bb.data) ==> output.bb.data == null)
      ensures socket.connected == connectOk && closed == !connectOk
      ensures threw <==> connectOk && old(output.bb.size) > 0 && kernel.Broken?
      ensures Extends(old(Out()), Out(), [])
      ensures |Out().taken| == |old(Out()).taken| + if connectOk && kernel.Takes? then kernel.n else 0
      ensures connectOk && !threw ==> (Selects(socket.selevent, EVENT_WRITE) <==> output.bb.size > 0)
      ensures old(output.bb.Accounted()) ==> output.bb.Accounted() && output.bb.Others() == old(output.bb.Others())
      ensures old(Accounted()) ==> Accounted()
    {
      hide Selects, Updated, Allowed, BlockBuffer.Accounted, BlockBuffer.Others, BlockBuffer.Contents;
      EventBits();
      socket.connected := connectOk;
      if !connectOk {
        closed := true;
        return false;
      }
      var waits := false;
      if output.bb.size > 0 {
        var io := FlushOut(kernel);
        if io.Threw? {
          return true;
        }
        waits := output.bb.size > 0;
      }
      Select(EVENT_ALL, if waits then EVENT_RW else EVENT_READ);
      return false;
    }

    /** The socket takes bytes again: flush, and lose interest in writing once nothing waits. */
    method OnWrite(kernel: SendAnswer)
      requires Valid() && !closed && socket.connected
      requires kernel.Takes? ==> kernel.n <= output.bb.size
      modifies this`closed, socket, epoll, output.bb, output.bb.data, output.bb.counters
      ensures Valid() && (output.bb.data != old(output.bb.data) ==> output.bb.data == null)
      ensures socket.connected && (closed <==> kernel.Broken?)
      ensures Extends(old(Out()), Out(), [])
      ensures |Out().taken| == |old(Out()).taken| + if kernel.Takes? then kernel.n else 0
      ensures !closed ==> (Selects(socket.selevent, EVENT_WRITE) <==> output.bb.size > 0)
      ensures !closed ==> output.bb.block == if output.bb.size == 0 then 0 else old(output.bb.block)
      ensures old(output.bb.Accounted()) ==> output.bb.Accounted() && output.bb.Others() == old(output.bb.Others())
      ensures old(Accounted()) ==> Accounted()
    {
      hide Selects, Updated, Allowed, BlockBuffer.Accounted, BlockBuffer.Others, BlockBuffer.Contents;
      EventBits();
      var io := FlushOut(kernel);
      if io.Threw? {
        closed := true;
      } else if output.bb.size == 0 {
        AddEvent(socket, epoll, EVENT_WRITE, EVENT_NONE);
      }
    }

    /** Erases what the consumer used. */
    method DropConsumed(used: nat)
      requires Buffers() && used <= input.bb.size
      modifies input.bb, input.bb.data, input.bb.counters
      ensures Buffers() && (input.bb.data != old(input.bb.data) ==> input.bb.data == null)
      ensures input.Contents() == old(input.Contents())[used..]
      ensures input.bb.block == if input.bb.size == 0 then 0 else old(input.bb.block)
      ensures old(input.bb.Accounted()) ==> input.bb.Accounted() && input.bb.Others() == old(input.bb.Others())
      ensures old(Accounted()) ==> Accounted()
    {
      hide BlockBuffer.Accounted, BlockBuffer.Others, BlockBuffer.Contents;
      FrontErased(input.Contents(), used);
      ghost var others := input.bb.Others();
      CountedAmongOthers(input.bb, output.bb);
      input.bb.Erase(0, used, false);
      if input.bb.Accounted() && input.bb.Others() == others {
        StaysAccounted(input.bb, output.bb, others);
      }
    }

    /** Gives the whole input buffer to the consumer and erases what it used. */
    method Consume()
      requires Valid() && !closed
      modifies this`closed, this`end, consumer, input.bb, input.bb.data, input.bb.counters
      ensures Valid() && (input.bb.data != old(input.bb.data) ==> input.bb.data == null)
      ensures Receiving() == Parsing(consumer.service, old(consumer.seen), old(input.Contents()))
      ensures closed <==> end != NeedMore
      ensures old(input.bb.Accounted()) ==> input.bb.Accounted() && input.bb.Others() == old(input.bb.Others())
      ensures old(Accounted()) ==> Accounted()
    {
      hide WriteInterest, Parse, BlockBuffer.Accounted, BlockBuffer.Others, BlockBuffer.Contents;
      var data := input.Contents();
      var r := consumer.OnData(data);
      match r {
        case Offset(used) =>
          DropConsumed(used);
        case MinusOne => closed, end := true, Rejected;
        case Threw(again) =>
          if !again {
            closed, end := true, Raised;
          }
        case Undetermined => closed, end := true, Undefined;
      }
    }

    /** The pump of onRead. */
    method PumpIn(kernel: RecvAnswer, mallocOk: bool) returns (r: PumpResult)
      requires Buffers()
      modifies input.bb, input.bb.data, input.bb.counters
      ensures Buffers() && (input.bb.data != old(input.bb.data) ==> fresh(input.bb.data))
      ensures r.Read? ==> kernel.Holds? && r.n <= |kernel.data| && (r.n == 0 <==> kernel.data == [])
                          && input.Contents() == old(input.Contents()) + kernel.data[..r.n]
      ensures r.Read? ==> r.n == |kernel.data| || r.n == old(input.Room(mallocOk)) < |kernel.data|
      ensures !r.Read? ==> input.Contents() == old(input.Contents())
      ensures r.RecvThrew? ==> r.again == kernel.NotYet? && !kernel.Holds?
      ensures r == Full || r.Read? == kernel.Holds?
      ensures r == Full <==> old(input.Room(mallocOk)) == 0
      ensures mallocOk ==> (r == Full <==> old(input.bb.size) == BUFFER_BLOCK_SIZE * BUFFER_MAX_BLOCKS)
      ensures old(input.bb.Accounted()) ==> input.bb.Accounted() && input.bb.Others() == old(input.bb.Others())
      ensures old(Accounted()) ==> Accounted()
    {
      hide BlockBuffer.Accounted, BlockBuffer.Others;
      ghost var others := input.bb.Others();
      CountedAmongOthers(input.bb, output.bb);
      r := input.Pump(kernel, mallocOk);
      if input.bb.Accounted() && input.bb.Others() == others {
        StaysAccounted(input.bb, output.bb, others);
      }
    }

    /** The socket has bytes: take what fits, cut the whole frames off, keep the rest.  With chunk the bytes taken, the
        receiving side makes exactly one Receive step. */
    method OnRead(kernel: RecvAnswer, mallocOk: bool) returns (ghost chunk: bytes)
      requires Valid() && !closed && socket.connected
      modifies this`closed, this`end, consumer, input.bb, input.bb.data, input.bb.counters
      ensures Valid()
      ensures chunk <= if kernel.Holds? then kernel.data else []
      ensures kernel.Holds? ==> |chunk| == |kernel.data| || |chunk| == old(input.Room(mallocOk)) < |kernel.data|
      ensures chunk != [] ==> Receiving() == Receive(consumer.service, old(Receiving()), chunk)
      ensures chunk == [] ==> Receiving() == old(Receiving())
      ensures old(input.Room(mallocOk)) == 0 <==>
                old(input.bb.size) == if mallocOk then BUFFER_BLOCK_SIZE * BUFFER_MAX_BLOCKS else old(input.bb.Capacity())
      ensures closed <==> old(input.Room(mallocOk)) == 0 || kernel.Failed? || kernel == Holds([]) || end != NeedMore
      ensures old(input.bb.Accounted()) ==> input.bb.Accounted() && input.bb.Others() == old(input.bb.Others())
      ensures old(Accounted()) ==> Accounted()
    {
      hide WriteInterest, Parse, BlockBuffer.Accounted, BlockBuffer.Others, BlockBuffer.Contents;
      chunk := [];
      var pumped := PumpIn(kernel, mallocOk);
      match pumped {
        case Full => closed := true;
        case RecvThrew(again) => closed := !again;
        case Read(n) =>
          if n == 0 {
            closed := true;
          } else {
            chunk := kernel.data[..n];
            Consume();
          }
      }
    }
  }
}

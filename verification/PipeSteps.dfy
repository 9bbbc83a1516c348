/** The connections of the two services make the steps of the pipe: each method that moves bytes is a Next step, or
    leaves the pipe as it was, with the state's outgoing and receiving sides those of the connections. */
module PipeSteps {
  import opened Bytes
  import opened SockBuffers
  import opened Frames
  import opened JsonSenders
  import opened Connections
  import opened Pipe

  /** The sending service sends a message.  It is queued whole, or torn, or nothing happens. */
  method SendStep(h: Handler, conn: Connection, sender: JsonSender, kernel: SendAnswer, mallocOk: bool, ghost s: State)
    returns (r: WriteResult, ghost s': State)
    requires conn.Valid() && !conn.closed && s.out == conn.Out() && s.torn == []
    requires sender.Valid() && !sender.raised && sender.session == NO_SESSION
    requires Fits(Message(sender.uri, sender.Body()))
    requires sender.pb != conn.output.bb && sender.pb != conn.input.bb
    requires sender.pb.data != conn.output.bb.data && (sender.pb.data != null ==> sender.pb.data != conn.input.bb.data)
    requires kernel.Takes? ==> kernel.n <= sender.pb.size
    modifies sender.pb, sender.pb.data, sender.pb.counters
    modifies conn.socket, conn.epoll, conn.output.bb, conn.output.bb.data, conn.output.bb.counters
    ensures conn.Valid() && s'.out == conn.Out() && Next(h, s, s')
    ensures s'.sent == s.sent + if r == Written && conn.enabled then [Message(sender.uri, old(sender.Body()))] else []
    ensures s'.torn != [] <==> r.Overflow?
    ensures sender.pb.Valid() && sender.pb.Contents() == Pack(NO_SESSION, Message(sender.uri, old(sender.Body())))
    ensures var packed := sender.pb.Contents();
            if conn.enabled
            then Answers(r, old(conn.output.bb.size), old(conn.output.Limit(mallocOk)), packed, old(conn.Asked(kernel)))
                 && s'.out.taken == s.out.taken + packed[..AtOnce(old(conn.output.bb.size), old(conn.Asked(kernel)))]
            else r == Written && s'.out == s.out
    ensures s'.receiver == s.receiver && s'.chunks == s.chunks
    ensures sender.pb.counters !in {conn.input.bb.counters, conn.output.bb.counters} && old(conn.Accounted()) ==>
              conn.Accounted()
  {
    hide Pack, Extends, Connection.WriteInterest, Accepted, Answers, AtOnce, SockBuffer.Limit;
    var m := Message(sender.uri, sender.Body());
    r := conn.Send(sender, kernel, mallocOk);
    s' := s.(out := conn.Out());
    AcceptedPart(r, sender.pb.Contents());
    if conn.enabled && r == Written {
      s' := s'.(sent := s.sent + [m]);
      assert Queue(s, s', m);
    } else if conn.enabled && r.Overflow? {
      s' := s'.(torn := Pack(NO_SESSION, m)[..r.sentPart], tornMessage := m);
      assert Tear(s, s', m);
    } else {
      assert Flush(s, s');
    }
  }

  lemma AcceptedPart(r: WriteResult, msg: bytes)
    requires r.Overflow? ==> 0 < r.sentPart < |msg|
    ensures Accepted(r, msg) == match r case Written => msg case Overflow(n) => msg[..n] case _ => []
    ensures r.Overflow? ==> [] < msg[..r.sentPart] < msg
  {
  }

  /** The sending socket takes bytes. */
  method WriteStep(h: Handler, conn: Connection, kernel: SendAnswer, ghost s: State) returns (ghost s': State)
    requires conn.Valid() && !conn.closed && conn.socket.connected && s.out == conn.Out()
    requires kernel.Takes? ==> kernel.n <= conn.output.bb.size
    modifies conn`closed, conn.socket, conn.epoll, conn.output.bb, conn.output.bb.data, conn.output.bb.counters
    ensures conn.Valid() && s'.out == conn.Out() && s' == s.(out := s'.out) && Next(h, s, s')
    ensures |s'.out.taken| == |s.out.taken| + (if kernel.Takes? then kernel.n else 0) && (conn.closed <==> kernel.Broken?)
    ensures old(conn.Accounted()) ==> conn.Accounted()
  {
    conn.OnWrite(kernel);
    s' := s.(out := conn.Out());
    assert Flush(s, s');
  }

  /** The connection in progress is there, or failed. */
  method ConnectedStep(h: Handler, conn: Connection, connectOk: bool, kernel: SendAnswer, ghost s: State)
    returns (ghost s': State)
    requires conn.Valid() && !conn.closed && !conn.socket.connected && s.out == conn.Out()
    requires kernel.Takes? ==> kernel.n <= conn.output.bb.size
    modifies conn`closed, conn.socket, conn.epoll, conn.output.bb, conn.output.bb.data, conn.output.bb.counters
    ensures conn.Valid() && s'.out == conn.Out() && s' == s.(out := s'.out) && Next(h, s, s')
    ensures |s'.out.taken| == |s.out.taken| + if connectOk && kernel.Takes? then kernel.n else 0
    ensures conn.socket.connected == connectOk && conn.closed == !connectOk
    ensures old(conn.Accounted()) ==> conn.Accounted()
  {
    var threw := conn.OnConnected(connectOk, kernel);
    s' := s.(out := conn.Out());
    assert Flush(s, s');
  }

  /** The receiving socket has bytes that the sending one took and that were not delivered before. */
  method ReadStep(conn: Connection, kernel: RecvAnswer, mallocOk: bool, ghost s: State) returns (ghost s': State)
    requires conn.Valid() && !conn.closed && conn.socket.connected && s.receiver == conn.Receiving()
    requires kernel.Holds? ==> Flatten(s.chunks) + kernel.data <= s.out.taken
    modifies conn`closed, conn`end, conn.consumer, conn.input.bb, conn.input.bb.data, conn.input.bb.counters
    ensures conn.Valid() && s'.receiver == conn.Receiving() && s' == s.(receiver := s'.receiver, chunks := s'.chunks)
    ensures Next(conn.consumer.service, s, s')
    ensures kernel.Holds? ==> |Flatten(s'.chunks)| == |Flatten(s.chunks)| + |kernel.data|
                              || |Flatten(s'.chunks)| == |Flatten(s.chunks)| + old(conn.input.Room(mallocOk))
    ensures conn.closed <==> old(conn.input.Room(mallocOk)) == 0 || kernel.Failed? || kernel == Holds([]) || conn.end != NeedMore
    ensures old(conn.Accounted()) ==> conn.Accounted()
  {
    hide Receive, Flatten;
    ghost var chunk := conn.OnRead(kernel, mallocOk);
    if chunk == [] {
      s' := s;
      assert s.out.waiting + [] == s.out.waiting;
      assert Flush(s, s');
    } else {
      s' := s.(chunks := s.chunks + [chunk], receiver := conn.Receiving());
      DeliveredPart(Flatten(s.chunks), chunk, kernel.data, s.out.taken);
      ReceiveAllMore(conn.consumer.service, s.chunks, chunk);
      assert Deliver(conn.consumer.service, s, s', chunk);
    }
  }

  lemma DeliveredPart(before: bytes, chunk: bytes, data: bytes, taken: bytes)
    requires chunk <= data && before + data <= taken
    ensures before + chunk <= taken
  {
  }

  // ---- the input never runs out of room ----

  /** Every message sent, the torn one included, fits the input buffer. */
  ghost predicate AllFitBuffer(s: State, max: nat) {
    && (forall i :: 0 <= i < |s.sent| ==> HEADER_SIZE + |s.sent[i].body| <= max)
    && (s.torn != [] ==> HEADER_SIZE + |s.tornMessage.body| <= max)
  }

  /** In no reachable state of the pipe is the buffer of a connection that is still open at its maximum. */
  lemma ReceiverHasRoom(h: Handler, s: State, max: nat)
    requires Inv(h, s) && AllFitBuffer(s, max) && 0 < max && Uninterrupted(h, Flatten(s.chunks))
    ensures s.receiver.end == NeedMore ==> |s.receiver.input| < max
  {
    hide Pack, ReceiveAll, Flatten, Stream, Fits;
    if s.torn == [] {
      assert Stream(s.sent) + s.torn == Stream(s.sent);
      InputNeverFull(h, s.sent, s.chunks, max);
    } else {
      var ms := s.sent + [s.tornMessage];
      AllFitMore(s.sent, s.tornMessage);
      StreamOfMore(s.sent, s.tornMessage);
      assert Flatten(s.chunks) <= Stream(s.sent) + s.torn <= Stream(ms);
      InputNeverFull(h, ms, s.chunks, max);
    }
  }

  /** So a read that finds bytes always takes some: a peer whose messages fit is never closed for a full buffer. */
  method ReadTakesBytes(conn: Connection, data: bytes, ghost s: State) returns (ghost s': State, ghost chunk: bytes)
    requires conn.Valid() && !conn.closed && conn.socket.connected && s.receiver == conn.Receiving()
    requires Inv(conn.consumer.service, s) && AllFitBuffer(s, BUFFER_BLOCK_SIZE * BUFFER_MAX_BLOCKS)
    requires data != [] && Flatten(s.chunks) + data <= s.out.taken
    requires Uninterrupted(conn.consumer.service, Flatten(s.chunks))
    modifies conn`closed, conn`end, conn.consumer, conn.input.bb, conn.input.bb.data, conn.input.bb.counters
    ensures conn.Valid() && s'.receiver == conn.Receiving()
    ensures chunk != [] && Deliver(conn.consumer.service, s, s', chunk)
    ensures conn.closed <==> conn.end != NeedMore
    ensures old(conn.Accounted()) ==> conn.Accounted()
  {
    hide Receive, Flatten, Inv, AllFitBuffer, Connection.WriteInterest;
    ReceiverHasRoom(conn.consumer.service, s, BUFFER_BLOCK_SIZE * BUFFER_MAX_BLOCKS);
    chunk := conn.OnRead(Holds(data), true);
    s' := s.(chunks := s.chunks + [chunk], receiver := conn.Receiving());
    DeliveredPart(Flatten(s.chunks), chunk, data, s.out.taken);
  }
}

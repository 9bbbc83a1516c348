/** From one service to another: messages packed and queued on one connection, bytes moved by sockets that take and
    deliver any amount, frames cut on the other.  The steps are those the contracts of Connection allow: Extends for
    the outgoing side, Receive for the incoming side.  Module PipeSteps shows that its methods make them. */
module Pipe {
  import opened Bytes
  import opened Frames
  import opened Connections

  /** sent: the messages accepted whole.  torn: the part of one more message that went out before its rest overflowed,
      after which nothing else is sent.  chunks: what the receiving socket delivered, read by read. */
  datatype State = State(out: Outgoing, sent: seq<Message>, torn: bytes, tornMessage: Message,
                         chunks: seq<bytes>, receiver: Receiver)

  ghost predicate Init(s: State) {
    s.out == Outgoing([], []) && s.sent == [] && s.torn == [] && s.chunks == [] && s.receiver == NEW_RECEIVER
  }

  ghost predicate Queue(s: State, s': State, m: Message) {
    && s.torn == [] && Fits(m)
    && Extends(s.out, s'.out, Pack(NO_SESSION, m))
    && s' == s.(out := s'.out, sent := s.sent + [m])
  }

  ghost predicate Tear(s: State, s': State, m: Message) {
    && s.torn == [] && Fits(m)
    && [] < s'.torn < Pack(NO_SESSION, m)
    && Extends(s.out, s'.out, s'.torn)
    && s' == s.(out := s'.out, torn := s'.torn, tornMessage := m)
  }

  /** A flush, or a send that was refused whole. */
  ghost predicate Flush(s: State, s': State) {
    Extends(s.out, s'.out, []) && s' == s.(out := s'.out)
  }

  ghost predicate Deliver(h: Handler, s: State, s': State, chunk: bytes) {
    && Flatten(s.chunks) + chunk <= s.out.taken
    && s' == s.(chunks := s.chunks + [chunk], receiver := Receive(h, s.receiver, chunk))
  }

  ghost predicate Next(h: Handler, s: State, s': State) {
    || (exists m :: Queue(s, s', m))
    || (exists m :: Tear(s, s', m))
    || Flush(s, s')
    || (exists chunk :: Deliver(h, s, s', chunk))
  }

  ghost predicate IsRun(h: Handler, run: seq<State>) {
    && |run| > 0
    && Init(run[0])
    && forall i :: 0 <= i < |run| - 1 ==> Next(h, run[i], run[i + 1])
  }

  ghost predicate Inv(h: Handler, s: State) {
    && AllFit(s.sent)
    && s.out.taken + s.out.waiting == Stream(s.sent) + s.torn
    && (s.torn != [] ==> Fits(s.tornMessage) && s.torn < Pack(NO_SESSION, s.tornMessage))
    && s.receiver == ReceiveAll(h, s.chunks)
    && Flatten(s.chunks) <= s.out.taken
  }

  lemma ReceiveAllMore(h: Handler, chunks: seq<bytes>, chunk: bytes)
    ensures ReceiveAll(h, chunks + [chunk]) == Receive(h, ReceiveAll(h, chunks), chunk)
    ensures Flatten(chunks + [chunk]) == Flatten(chunks) + chunk
  {
    hide Receive;
    assert (chunks + [chunk])[..|chunks|] == chunks;
  }

  lemma QueueKeepsInv(h: Handler, s: State, s': State, m: Message)
    requires Inv(h, s) && Queue(s, s', m)
    ensures Inv(h, s')
  {
    hide Pack, Stream, ReceiveAll, Flatten, Fits, AllFit;
    AllFitMore(s.sent, m);
    StreamOfMore(s.sent, m);
    assert Stream(s.sent) + [] == Stream(s.sent);
    assert Stream(s'.sent) + [] == Stream(s'.sent);
  }

  lemma TearKeepsInv(h: Handler, s: State, s': State, m: Message)
    requires Inv(h, s) && Tear(s, s', m)
    ensures Inv(h, s')
  {
    hide Pack, Stream, ReceiveAll, Flatten, Fits, AllFit;
    assert Stream(s.sent) + [] == Stream(s.sent);
  }

  lemma FlushKeepsInv(h: Handler, s: State, s': State)
    requires Inv(h, s) && Flush(s, s')
    ensures Inv(h, s')
  {
    hide Pack, Stream, ReceiveAll, Flatten, Fits, AllFit;
    var all := s.out.taken + s.out.waiting;
    assert all + [] == all;
  }

  lemma DeliverKeepsInv(h: Handler, s: State, s': State, chunk: bytes)
    requires Inv(h, s) && Deliver(h, s, s', chunk)
    ensures Inv(h, s')
  {
    hide Pack, Stream, ReceiveAll, Flatten, Fits, AllFit, Receive;
    ReceiveAllMore(h, s.chunks, chunk);
  }

  lemma NextKeepsInv(h: Handler, s: State, s': State)
    requires Inv(h, s) && Next(h, s, s')
    ensures Inv(h, s')
  {
    hide Inv, Queue, Tear, Flush, Deliver;
    if m :| Queue(s, s', m) {
      QueueKeepsInv(h, s, s', m);
    } else if m :| Tear(s, s', m) {
      TearKeepsInv(h, s, s', m);
    } else if Flush(s, s') {
      FlushKeepsInv(h, s, s');
    } else {
      var chunk :| Deliver(h, s, s', chunk);
      DeliverKeepsInv(h, s, s', chunk);
    }
  }

  lemma {:induction false} RunKeepsInv(h: Handler, run: seq<State>)
    requires IsRun(h, run)
    ensures Inv(h, run[|run| - 1])
  {
    hide Next;
    if |run| > 1 {
      RunKeepsInv(h, run[..|run| - 1]);
      NextKeepsInv(h, run[|run| - 2], run[|run| - 1]);
    }
  }

  /** What a state of the pipe owes its ends, unless the service interrupts: the requests given to the receiving service
      are the first k messages sent, each with its own uri and body and no session; and all of them once every byte has
      been taken, delivered and cut, and the service never stopped the connection. */
  ghost predicate DeliversInOrder(s: State) {
    && AllFit(s.sent)
    && (var k := |s.receiver.seen|; k <= |s.sent| && s.receiver.seen == ExpectedAll(s.sent[..k]))
    && s.receiver.end != Undefined
    && (s.torn == [] && s.out.waiting == [] && Flatten(s.chunks) == s.out.taken && s.receiver.end == NeedMore ==>
          s.receiver.seen == ExpectedAll(s.sent) && s.receiver.input == [])
  }

  lemma WholeDelivers(h: Handler, s: State)
    requires Inv(h, s) && s.torn == [] && Uninterrupted(h, Flatten(s.chunks))
    ensures DeliversInOrder(s)
  {
    hide Pack, ReceiveAll, Flatten, Expected, Stream, Uninterrupted;
    var k := |s.receiver.seen|;
    assert Stream(s.sent) + s.torn == Stream(s.sent);
    DeliveredPrefix(h, s.sent, s.chunks);
    if k == |s.sent| {
      assert s.sent[..k] == s.sent;
    } else {
      StreamGrows(s.sent, k + 1);
    }
  }

  lemma TornDelivers(h: Handler, s: State)
    requires Inv(h, s) && s.torn != [] && Uninterrupted(h, Flatten(s.chunks))
    ensures DeliversInOrder(s)
  {
    hide Pack, ReceiveAll, Flatten, Expected, Stream, Uninterrupted;
    var ms, k := s.sent + [s.tornMessage], |s.receiver.seen|;
    TakeOfMore(s.sent, s.tornMessage);
    AllFitMore(s.sent, s.tornMessage);
    StreamOfMore(s.sent, s.tornMessage);
    assert Flatten(s.chunks) <= Stream(s.sent) + s.torn <= Stream(ms);
    DeliveredPrefix(h, ms, s.chunks);
    assert k <= |s.sent| ==> ms[..k] == s.sent[..k];
  }

  lemma InvDelivers(h: Handler, s: State)
    requires Inv(h, s)
    ensures Uninterrupted(h, Flatten(s.chunks)) ==> DeliversInOrder(s)
  {
    if Uninterrupted(h, Flatten(s.chunks)) {
      if s.torn == [] {
        WholeDelivers(h, s);
      } else {
        TornDelivers(h, s);
      }
    }
  }

  /** End to end, over every run: any messages, any partial sends, any chunks, any service that one pass over what arrived
      would not interrupt with EAGAIN or EINTR. */
  lemma EveryRunDeliversInOrder(h: Handler, run: seq<State>)
    requires IsRun(h, run)
    ensures var s := run[|run| - 1];
            Uninterrupted(h, Flatten(s.chunks)) ==> DeliversInOrder(s)
  {
    RunKeepsInv(h, run);
    InvDelivers(h, run[|run| - 1]);
  }
}

/** The framed byte stream: what one frame is, what cutting frames out of a stream means, and why it does not matter
    how the stream was split into reads. */
module Frames {
  import opened Bytes

  // HEADER_SIZE and JSON_HEADER_SIZE of core/base/Header.h
  const HEADER_SIZE := 9       // session 4, length 4, uri 1
  const JSON_HEADER_SIZE := 8  // session 4, length 4; the length counts the uri and the body

  /** What popHeader leaves in a request: the header fields, and the rest of the frame still to be unmarshalled. */
  datatype Request = Request(session: uint32, length: uint32, uri: byte, body: bytes)

  datatype Proto = Json | Bin | Http | NoProto

  const PROTO_MAGIC_SHIFT := 0x2000_0000  // 1 << 29

  /** Splits a length field into the protocol tag in its top three bits and the length in the other 29. */
  function GetProtoType(length: uint32): (r: (Proto, nat))
    ensures r.1 < PROTO_MAGIC_SHIFT
  {
    var top := length / PROTO_MAGIC_SHIFT;
    (if top == 0 then Json else if top == 1 then Bin else if top == 2 then Http else NoProto,
     length % PROTO_MAGIC_SHIFT)
  }

  datatype Cut =
    | More                             // not a whole frame yet
    | Frame(request: Request, size: nat)
    | Malformed                        // the header runs past the frame: ReadStreamExn
    | Unset                            // a tag popHeader does not read: the request's uri stays indeterminate

  /** The frame at the head of data. */
  function ReadFrame(data: bytes): (c: Cut)
    ensures c.Frame? ==> JSON_HEADER_SIZE < c.size <= |data|
    ensures c.Malformed? || c.Unset? ==> JSON_HEADER_SIZE <= |data|
  {
    if |data| < JSON_HEADER_SIZE then More else
    var length := Decode32(data[4..8]);
    var (proto, stated) := GetProtoType(length);
    var size := stated + JSON_HEADER_SIZE;
    if |data| < size then More
    else if proto != Json && proto != Bin then Unset
    else if size < HEADER_SIZE then Malformed
    else Frame(Request(Decode32(data[..4]), length, data[8], data[HEADER_SIZE..size]), size)
  }

  /** What the first eight bytes decide, in plain numbers: the length field's lower 29 bits count what follows them; tag
      0 and tag 1 make a frame of at least the uri, every other tag is not read. */
  lemma HeadIsDecided(data: bytes)
    requires |data| >= 8
    ensures var field := BigEndian(data[4..8]);
            var length, tag := field % 0x2000_0000, field / 0x2000_0000;
            match ReadFrame(data)
            case More => |data| < length + 8
            case Unset => |data| >= length + 8 && tag >= 2
            case Malformed => tag <= 1 && length == 0
            case Frame(r, size) =>
              && |data| >= size == length + 8 > 8 && tag <= 1
              && r.session == BigEndian(data[..4]) && r.length == field && r.uri == data[8] && r.body == data[9..size]
  {
    hide Decode32, BigEndian;
    Decode32IsBigEndian(data[..4]);
    Decode32IsBigEndian(data[4..8]);
  }

  /** What the service does with a request: carry on, answer -1, throw, or throw a socketExn with EAGAIN or EINTR. */
  datatype Verdict = Continue | Reject | Raise | Interrupt

  /** The service, as a function of all requests it was given so far, the present one last. */
  type Handler = seq<Request> -> Verdict

  datatype End = NeedMore | Rejected | Raised | Undefined | Interrupted

  /** The requests dispatched from some data, how many bytes they took, and why cutting stopped. */
  datatype Parsed = Parsed(requests: seq<Request>, used: nat, end: End)

  function Parse(h: Handler, before: seq<Request>, data: bytes): (p: Parsed)
    ensures p.used <= |data|
    ensures p.end == NeedMore ==> ReadFrame(data[p.used..]) == More
    decreases |data|
  {
    match ReadFrame(data)
    case More => assert data[0..] == data; Parsed([], 0, NeedMore)
    case Malformed => Parsed([], 0, Raised)
    case Unset => Parsed([], 0, Undefined)
    case Frame(request, size) =>
      match h(before + [request])
      case Reject => Parsed([request], 0, Rejected)
      case Raise => Parsed([request], 0, Raised)
      case Interrupt => Parsed([request], 0, Interrupted)
      case Continue =>
        var rest := Parse(h, before + [request], data[size..]);
        assert data[size..][rest.used..] == data[size + rest.used..];
        Parsed([request] + rest.requests, size + rest.used, rest.end)
  }

  /** A parse that starts after some requests and bytes, seen from before them. */
  ghost function After(done: seq<Request>, used: nat, p: Parsed): Parsed {
    Parsed(done + p.requests, used + p.used, p.end)
  }

  lemma AfterAfter(done: seq<Request>, used: nat, more: seq<Request>, size: nat, p: Parsed)
    ensures After(done, used, After(more, size, p)) == After(done + more, used + size, p)
  {
  }

  /** One round of Parse. */
  lemma ParseRound(h: Handler, before: seq<Request>, data: bytes)
    ensures Parse(h, before, data) ==
            match ReadFrame(data)
            case More => Parsed([], 0, NeedMore)
            case Malformed => Parsed([], 0, Raised)
            case Unset => Parsed([], 0, Undefined)
            case Frame(request, size) =>
              match h(before + [request])
              case Reject => Parsed([request], 0, Rejected)
              case Raise => Parsed([request], 0, Raised)
              case Interrupt => Parsed([request], 0, Interrupted)
              case Continue => After([request], size, Parse(h, before + [request], data[size..]))
  {
  }

  lemma ParseNothing(h: Handler, before: seq<Request>)
    ensures Parse(h, before, []) == Parsed([], 0, NeedMore)
  {
  }

  /** A stream that is one whole frame. */
  lemma ParseOne(h: Handler, before: seq<Request>, data: bytes, request: Request)
    requires ReadFrame(data) == Frame(request, |data|)
    ensures Parse(h, before, data) == match h(before + [request])
                                      case Continue => Parsed([request], |data|, NeedMore)
                                      case Reject => Parsed([request], 0, Rejected)
                                      case Raise => Parsed([request], 0, Raised)
                                      case Interrupt => Parsed([request], 0, Interrupted)
  {
    hide ReadFrame;
    assert data[|data|..] == [];
    ParseNothing(h, before + [request]);
  }

  /** The bytes of some frames. */
  function BytesOf(rs: seq<Request>): nat {
    if rs == [] then 0 else BytesOf(rs[..|rs| - 1]) + rs[|rs| - 1].length % 0x2000_0000 + 8
  }

  /** The service carried on after every request but the last, and its answer to that one is the reason to stop, if it is
      one; only what the service carried on after is used up. */
  ghost predicate StoppedBy(h: Handler, before: seq<Request>, p: Parsed) {
    var n := |p.requests|;
    && (forall i :: 0 < i < n ==> h(before + p.requests[..i]) == Continue)
    && (if n == 0 || h(before + p.requests) == Continue then
          p.end !in {Rejected, Interrupted} && p.used == BytesOf(p.requests)
        else
          && p.used == BytesOf(p.requests[..n - 1])
          && p.end == match h(before + p.requests) case Reject => Rejected case Interrupt => Interrupted case _ => Raised)
  }

  lemma {:induction false} VerdictsDecide(h: Handler, before: seq<Request>, data: bytes)
    ensures StoppedBy(h, before, Parse(h, before, data))
    decreases |data|
  {
    hide ReadFrame, Parse, StoppedBy;
    ParseRound(h, before, data);
    match ReadFrame(data) {
      case Frame(request, size) =>
        FrameTakes(data);
        if h(before + [request]) == Continue {
          VerdictsDecide(h, before + [request], data[size..]);
          StoppedLater(h, before, request, size, Parse(h, before + [request], data[size..]));
        } else {
          StoppedAtOnce(h, before, Parse(h, before, data));
        }
      case _ => StoppedAtOnce(h, before, Parse(h, before, data));
    }
  }

  lemma FrameTakes(data: bytes)
    requires ReadFrame(data).Frame?
    ensures ReadFrame(data).size == ReadFrame(data).request.length % 0x2000_0000 + 8
  {
    hide Decode32;
  }

  lemma StoppedAtOnce(h: Handler, before: seq<Request>, p: Parsed)
    requires p.used == 0 && |p.requests| <= 1
    requires p.requests == [] ==> p.end !in {Rejected, Interrupted}
    requires p.requests != [] ==> h(before + p.requests) != Continue
                                  && p.end == match h(before + p.requests)
                                              case Reject => Rejected case Interrupt => Interrupted case _ => Raised
    ensures StoppedBy(h, before, p)
  {
    if p.requests != [] {
      assert p.requests[..0] == [];
    }
  }

  lemma StoppedLater(h: Handler, before: seq<Request>, request: Request, size: nat, p: Parsed)
    requires h(before + [request]) == Continue && size == request.length % 0x2000_0000 + 8
    requires StoppedBy(h, before + [request], p)
    ensures StoppedBy(h, before, After([request], size, p))
  {
    var n, all := |p.requests|, [request] + p.requests;
    assert before + [request] + p.requests == before + all;
    forall i | 0 < i < |all| ensures h(before + all[..i]) == Continue {
      assert before + all[..i] == before + [request] + p.requests[..i - 1];
      assert p.requests[..0] == [];
    }
    BytesOfOneMore(request, p.requests);
    if n > 0 {
      BytesOfOneMore(request, p.requests[..n - 1]);
      assert all[..n] == [request] + p.requests[..n - 1];
    } else {
      assert before + [request] + p.requests == before + [request];
    }
  }

  lemma {:induction false} BytesOfOneMore(request: Request, rs: seq<Request>)
    ensures BytesOf([request] + rs) == request.length % 0x2000_0000 + 8 + BytesOf(rs)
  {
    var all, n := [request] + rs, |rs|;
    if rs == [] {
      assert all[..0] == [] && all[0] == request;
    } else {
      BytesOfOneMore(request, rs[..n - 1]);
      assert all[..n] == [request] + rs[..n - 1];
    }
  }

  // ---- more data never changes what was already cut ----

  lemma ReadFrameIsStable(data: bytes, more: bytes)
    requires ReadFrame(data) != More
    ensures ReadFrame(data + more) == ReadFrame(data)
  {
    hide Decode32;
    var all := data + more;
    assert all[..4] == data[..4] && all[4..8] == data[4..8];
    var size := GetProtoType(Decode32(data[4..8])).1 + JSON_HEADER_SIZE;
    if HEADER_SIZE <= size {
      assert all[HEADER_SIZE..size] == data[HEADER_SIZE..size];
    }
  }

  /** Parsing a concatenation is parsing the first part, then what it left followed by the second part. */
  ghost function ParseInTwo(h: Handler, before: seq<Request>, a: bytes, b: bytes): Parsed {
    var p := Parse(h, before, a);
    if p.end != NeedMore then p
    else After(p.requests, p.used, Parse(h, before + p.requests, a[p.used..] + b))
  }

  lemma {:induction false} ParseSplits(h: Handler, before: seq<Request>, a: bytes, b: bytes)
    ensures Parse(h, before, a + b) == ParseInTwo(h, before, a, b)
    decreases |a|
  {
    hide ReadFrame, Parse;
    ParseRound(h, before, a);
    match ReadFrame(a) {
      case More =>
        assert a[0..] == a && before + [] == before;
        AfterNothing(Parse(h, before, a + b));
      case Frame(request, size) =>
        ReadFrameIsStable(a, b);
        ParseRound(h, before, a + b);
        if h(before + [request]) == Continue {
          var now, rest := before + [request], a[size..];
          assert (a + b)[size..] == rest + b;
          ParseSplits(h, now, rest, b);
          var p := Parse(h, now, rest);
          assert rest[p.used..] == a[size + p.used..];
          assert now + p.requests == before + ([request] + p.requests);
          AfterAfter([request], size, p.requests, p.used, Parse(h, now + p.requests, rest[p.used..] + b));
        }
      case _ =>
        ReadFrameIsStable(a, b);
        ParseRound(h, before, a + b);
    }
  }

  lemma AfterNothing(p: Parsed)
    ensures After([], 0, p) == p
  {
  }

  // ---- a receiving connection: chunks arrive, the unconsumed tail waits in the input buffer ----

  datatype Receiver = Receiver(input: bytes, seen: seq<Request>, end: End)

  const NEW_RECEIVER := Receiver([], [], NeedMore)

  /** One read.  A connection that stopped is closed by its event handler and takes no further reads. */
  function Receive(h: Handler, r: Receiver, chunk: bytes): Receiver {
    if r.end != NeedMore then r else Parsing(h, r.seen, r.input + chunk)
  }

  /** The consumer is given the whole input buffer; what it used is erased, unless it stopped.  An interruption is caught
      and forgotten: the connection stays open and the buffer keeps everything, requests already dispatched included. */
  function Parsing(h: Handler, seen: seq<Request>, data: bytes): Receiver {
    var p := Parse(h, seen, data);
    Receiver(if p.end == NeedMore then data[p.used..] else data, seen + p.requests,
             if p.end == Interrupted then NeedMore else p.end)
  }

  function ReceiveAll(h: Handler, chunks: seq<bytes>): Receiver {
    if chunks == [] then NEW_RECEIVER
    else Receive(h, ReceiveAll(h, chunks[..|chunks| - 1]), chunks[|chunks| - 1])
  }

  function Flatten(chunks: seq<bytes>): bytes {
    if chunks == [] then [] else Flatten(chunks[..|chunks| - 1]) + chunks[|chunks| - 1]
  }

  /** A receiver is where one pass over the data takes it: same requests in the same order, same reason to stop, and,
      while the connection is open, exactly the leftover in the buffer, which is never a whole frame. */
  ghost predicate Agrees(r: Receiver, p: Parsed, data: bytes)
    requires p.used <= |data|
  {
    && r.seen == p.requests
    && r.end == p.end
    && (p.end == NeedMore ==> r.input == data[p.used..] && ReadFrame(r.input) == More)
  }

  /** One pass over the data is not interrupted by the service. */
  predicate Uninterrupted(h: Handler, data: bytes) {
    Parse(h, [], data).end != Interrupted
  }

  lemma {:induction false} ReceivedInOnePass(h: Handler, chunks: seq<bytes>)
    requires Uninterrupted(h, Flatten(chunks))
    ensures Agrees(ReceiveAll(h, chunks), Parse(h, [], Flatten(chunks)), Flatten(chunks))
  {
    hide ReadFrame, Parse;
    ParseNothing(h, []);
    if chunks != [] {
      var init, last := chunks[..|chunks| - 1], chunks[|chunks| - 1];
      ParseSplits(h, [], Flatten(init), last);
      ReceivedInOnePass(h, init);
      var p := Parse(h, [], Flatten(init));
      if p.end == NeedMore {
        assert [] + p.requests == p.requests;
        var q := Parse(h, p.requests, Flatten(init)[p.used..] + last);
        assert (Flatten(init)[p.used..] + last)[q.used..] == Flatten(chunks)[p.used + q.used..];
      }
    }
  }

  /** Data with a whole frame at its head gives the service at least one request; only such data can be interrupted. */
  lemma WholeFrameIsDispatched(h: Handler, before: seq<Request>, data: bytes)
    ensures ReadFrame(data).Frame? ==> |Parse(h, before, data).requests| > 0
    ensures Parse(h, before, data).end == Interrupted ==> ReadFrame(data).Frame?
  {
    hide ReadFrame, Parse;
    ParseRound(h, before, data);
  }

  /** The service was given more requests than one pass would give it, or the frames it was given are still in the buffer
      and it will be. */
  ghost predicate Repeats(r: Receiver, p: Parsed) {
    |r.seen| > |p.requests| || (r.end == NeedMore && r.seen == p.requests && ReadFrame(r.input).Frame?)
  }

  /** One more read keeps it so. */
  lemma RepeatsAfter(h: Handler, r: Receiver, p: Parsed, chunk: bytes)
    requires Repeats(r, p)
    ensures Repeats(Receive(h, r, chunk), p)
  {
    hide ReadFrame, Parse;
    if |r.seen| <= |p.requests| {
      ReadFrameIsStable(r.input, chunk);
      WholeFrameIsDispatched(h, r.seen, r.input + chunk);
    }
  }

  /** However a stream is split into reads: if one pass over it would be interrupted, requests are repeated, or will be. */
  lemma {:induction false} InterruptedRepeats(h: Handler, chunks: seq<bytes>)
    requires !Uninterrupted(h, Flatten(chunks))
    ensures Repeats(ReceiveAll(h, chunks), Parse(h, [], Flatten(chunks)))
  {
    hide ReadFrame, Parse, Repeats;
    ParseNothing(h, []);
    if chunks != [] {
      var init, last := chunks[..|chunks| - 1], chunks[|chunks| - 1];
      var r, p := ReceiveAll(h, init), Parse(h, [], Flatten(init));
      ParseSplits(h, [], Flatten(init), last);
      if p.end == Interrupted {
        InterruptedRepeats(h, init);
        RepeatsAfter(h, r, p, last);
      } else {
        ReceivedInOnePass(h, init);
        assert [] + p.requests == p.requests;
        WholeFrameIsDispatched(h, p.requests, r.input + last);
        var now := Receive(h, r, last);
        assert Repeats(now, Parse(h, [], Flatten(chunks))) by { KeptWhole(now, Parse(h, [], Flatten(chunks))); }
      }
    }
  }

  lemma KeptWhole(r: Receiver, p: Parsed)
    requires r.end == NeedMore && r.seen == p.requests && ReadFrame(r.input).Frame?
    ensures Repeats(r, p)
  {
  }

  /** What can be observed from outside: the requests the service was given, and, while the connection is open, that the
      buffer holds what one pass leaves and no whole frame at its head. */
  ghost predicate Observed(r: Receiver, p: Parsed, data: bytes)
    requires p.used <= |data|
  {
    && r.seen == p.requests
    && (r.end == NeedMore ==> r.input == data[p.used..] && !ReadFrame(r.input).Frame?)
  }

  /** Fragmentation independence.  However a stream is split into reads, the service is given the requests of one pass over
      the whole stream and the buffer holds what that pass leaves, exactly when the service does not interrupt that pass;
      then the reason for stopping is that of the pass, too. */
  lemma FragmentationIndependence(h: Handler, chunks: seq<bytes>)
    ensures Observed(ReceiveAll(h, chunks), Parse(h, [], Flatten(chunks)), Flatten(chunks))
            <==> Uninterrupted(h, Flatten(chunks))
    ensures Uninterrupted(h, Flatten(chunks)) ==>
              Agrees(ReceiveAll(h, chunks), Parse(h, [], Flatten(chunks)), Flatten(chunks))
  {
    hide ReadFrame, Parse;
    if Uninterrupted(h, Flatten(chunks)) {
      ReceivedInOnePass(h, chunks);
    } else {
      InterruptedRepeats(h, chunks);
    }
  }

  // ---- the sending side ----

  datatype Message = Message(uri: byte, body: bytes)

  const NO_SESSION: uint32 := 0xFFFF_FFFF  // JsonSender's default session, -1

  /** The bytes of a packed message. */
  function Pack(session: uint32, m: Message): bytes {
    Encode32(session) + Encode32(Truncate32(1 + |m.body|)) + [m.uri] + m.body
  }

  /** Session and length in network order, the length counting uri and body modulo 2^32, then uri and body. */
  lemma PackedLayout(session: uint32, m: Message)
    ensures var p := Pack(session, m);
            && |p| == 9 + |m.body| && BigEndian(p[..4]) == session && BigEndian(p[4..8]) == (1 + |m.body|) % 0x1_0000_0000
            && p[8] == m.uri && p[9..] == m.body
  {
    hide Encode32, BigEndian;
    var length := Truncate32(1 + |m.body|);
    Encode32IsBigEndian(session);
    Encode32IsBigEndian(length);
    var p := Pack(session, m);
    assert p[..4] == Encode32(session) && p[4..8] == Encode32(length) && p[9..] == m.body;
  }

  predicate Fits(m: Message) {
    1 + |m.body| < PROTO_MAGIC_SHIFT
  }

  function Expected(session: uint32, m: Message): Request
    requires Fits(m)
  {
    Request(session, 1 + |m.body|, m.uri, m.body)
  }

  /** A packed message is cut out of a stream whole, with its own session, uri and body, exactly when its length
      leaves the three tag bits alone. */
  lemma PackThenReadFrame(session: uint32, m: Message, rest: bytes)
    ensures Fits(m) ==> ReadFrame(Pack(session, m) + rest) == Frame(Expected(session, m), |Pack(session, m)|)
    ensures Fits(m) <==> var c := ReadFrame(Pack(session, m) + rest);
              c.Frame? && c.request.session == session && c.request.uri == m.uri && c.request.body == m.body
  {
    hide Decode32, Encode32;
    var data := Pack(session, m) + rest;
    var length := Truncate32(1 + |m.body|);
    assert data[..4] == Encode32(session) && data[4..8] == Encode32(length);
    Encode32IsBigEndian(session);
    Encode32IsBigEndian(length);
    var (proto, stated) := GetProtoType(length);
    if Fits(m) {
      assert data[HEADER_SIZE..stated + JSON_HEADER_SIZE] == m.body;
    } else if ReadFrame(data).Frame? {
      assert |ReadFrame(data).request.body| == stated - 1;
      assert |m.body| >= PROTO_MAGIC_SHIFT - 1 > stated - 1;
    }
  }

  function Stream(ms: seq<Message>): bytes {
    if ms == [] then [] else Stream(ms[..|ms| - 1]) + Pack(NO_SESSION, ms[|ms| - 1])
  }

  ghost predicate AllFit(ms: seq<Message>) {
    forall i :: 0 <= i < |ms| ==> Fits(ms[i])
  }

  /** The requests a list of messages should turn into. */
  function ExpectedAll(ms: seq<Message>): (rs: seq<Request>)
    requires AllFit(ms)
    ensures |rs| == |ms|
  {
    if ms == [] then [] else ExpectedAll(ms[..|ms| - 1]) + [Expected(NO_SESSION, ms[|ms| - 1])]
  }

  lemma {:induction false} StreamGrows(ms: seq<Message>, k: nat)
    requires k <= |ms|
    ensures Stream(ms[..k]) <= Stream(ms)
  {
    if k < |ms| {
      StreamGrows(ms[..|ms| - 1], k);
      assert ms[..|ms| - 1][..k] == ms[..k];
    } else {
      assert ms[..k] == ms;
    }
  }

  /** Less than a packed message is no frame yet. */
  lemma PartOfPack(m: Message, part: bytes)
    requires Fits(m) && part < Pack(NO_SESSION, m)
    ensures ReadFrame(part) == More
  {
    hide ReadFrame;
    var pack := Pack(NO_SESSION, m);
    PackThenReadFrame(NO_SESSION, m, []);
    assert pack + [] == pack;
    if ReadFrame(part) != More {
      assert pack == part + pack[|part|..];
      ReadFrameIsStable(part, pack[|part|..]);
    }
  }

  /** p is what has been parsed of the first bytes of a stream of messages: the first k messages, and, unless the
      service stopped the connection, as many of them as arrived whole. */
  ghost predicate ParsedPrefix(p: Parsed, ms: seq<Message>, arrived: nat)
    requires AllFit(ms)
  {
    var k := |p.requests|;
    && k <= |ms|
    && p.requests == ExpectedAll(ms[..k])
    && |Stream(ms[..k])| <= arrived
    && p.end != Undefined
    && (p.end == NeedMore ==> p.used == |Stream(ms[..k])| && (k < |ms| ==> arrived < |Stream(ms[..k + 1])|))
  }

  lemma ParsedPrefixOfMore(p: Parsed, ms: seq<Message>, m: Message, arrived: nat)
    requires AllFit(ms) && Fits(m) && ParsedPrefix(p, ms, arrived) && arrived <= |Stream(ms)|
    ensures AllFit(ms + [m]) && ParsedPrefix(p, ms + [m], arrived)
  {
    hide Pack;
    var k, more := |p.requests|, ms + [m];
    assert more[..k] == ms[..k];
    if k < |ms| {
      assert more[..k + 1] == ms[..k + 1];
    } else {
      assert ms[..k] == ms && more[..k + 1] == more && more[..|ms|] == ms;
      assert |Pack(NO_SESSION, m)| > 0 by { PackIsNotEmpty(m); }
    }
  }

  lemma PackIsNotEmpty(m: Message)
    ensures |Pack(NO_SESSION, m)| == HEADER_SIZE + |m.body|
  {
  }

  lemma {:induction false} ParsePrefixOfStream(h: Handler, ms: seq<Message>, arrived: bytes)
    requires AllFit(ms) && arrived <= Stream(ms)
    ensures ParsedPrefix(Parse(h, [], arrived), ms, |arrived|)
    decreases |ms|
  {
    hide Parse, Pack, ParsedPrefix, Expected;
    if ms == [] {
      ParseNothing(h, []);
      assert ParsedPrefix(Parsed([], 0, NeedMore), ms, 0) by { ParsedNothing(); }
    } else {
      var init, m := ms[..|ms| - 1], ms[|ms| - 1];
      assert init + [m] == ms;
      if |arrived| <= |Stream(init)| {
        ParsePrefixOfStream(h, init, arrived);
        ParsedPrefixOfMore(Parse(h, [], arrived), init, m, |arrived|);
      } else {
        ParsePrefixOfStream(h, init, Stream(init));
        ParseLastMessage(h, init, m, arrived[|Stream(init)|..]);
        assert arrived == Stream(init) + arrived[|Stream(init)|..];
      }
    }
  }

  lemma ParsedNothing()
    ensures AllFit([]) && ParsedPrefix(Parsed([], 0, NeedMore), [], 0)
  {
  }

  lemma TakeOfMore(init: seq<Message>, m: Message)
    ensures (init + [m])[..|init|] == init && (init + [m])[..|init| + 1] == init + [m]
  {
  }

  lemma AllFitMore(init: seq<Message>, m: Message)
    requires AllFit(init) && Fits(m)
    ensures AllFit(init + [m])
  {
  }

  lemma StreamOfMore(init: seq<Message>, m: Message)
    ensures Stream(init + [m]) == Stream(init) + Pack(NO_SESSION, m)
  {
  }

  lemma ExpectedOfMore(init: seq<Message>, m: Message)
    requires AllFit(init) && Fits(m) && AllFit(init + [m])
    ensures ExpectedAll(init + [m]) == ExpectedAll(init) + [Expected(NO_SESSION, m)]
  {
  }

  lemma WholeStreamParsed(p: Parsed, ms: seq<Message>)
    requires AllFit(ms) && ParsedPrefix(p, ms, |Stream(ms)|) && p.end == NeedMore
    ensures p.requests == ExpectedAll(ms) && p.used == |Stream(ms)|
  {
    hide Pack, Expected;
    var k := |p.requests|;
    if k < |ms| {
      StreamGrows(ms, k + 1);
    } else {
      assert ms[..k] == ms;
    }
  }

  /** A packed message, or the beginning of one, arriving at a connection that waits for nothing. */
  lemma ParsePart(h: Handler, seen: seq<Request>, m: Message, part: bytes)
    requires Fits(m) && part <= Pack(NO_SESSION, m)
    ensures var e := Expected(NO_SESSION, m);
            Parse(h, seen, part) ==
            if part != Pack(NO_SESSION, m) then Parsed([], 0, NeedMore)
            else match h(seen + [e])
                 case Continue => Parsed([e], |part|, NeedMore)
                 case Reject => Parsed([e], 0, Rejected)
                 case Raise => Parsed([e], 0, Raised)
                 case Interrupt => Parsed([e], 0, Interrupted)
  {
    hide Parse, ReadFrame, Pack, Expected;
    if part == Pack(NO_SESSION, m) {
      assert part + [] == part;
      PackThenReadFrame(NO_SESSION, m, []);
      ParseOne(h, seen, part, Expected(NO_SESSION, m));
    } else {
      PartOfPack(m, part);
      ParseRound(h, seen, part);
    }
  }

  lemma ParsedAllButPart(init: seq<Message>, m: Message, arrived: nat)
    requires AllFit(init) && Fits(m) && |Stream(init)| <= arrived < |Stream(init)| + |Pack(NO_SESSION, m)|
    ensures AllFit(init + [m])
    ensures ParsedPrefix(Parsed(ExpectedAll(init), |Stream(init)|, NeedMore), init + [m], arrived)
  {
    hide Pack, Expected, Stream, ExpectedAll;
    TakeOfMore(init, m);
    AllFitMore(init, m);
    StreamOfMore(init, m);
    ExpectedOfMore(init, m);
  }

  lemma ParsedAll(init: seq<Message>, m: Message, used: nat, end: End)
    requires AllFit(init) && Fits(m) && end != Undefined
    requires end == NeedMore ==> used == |Stream(init)| + |Pack(NO_SESSION, m)|
    ensures AllFit(init + [m])
    ensures ParsedPrefix(Parsed(ExpectedAll(init) + [Expected(NO_SESSION, m)], used, end), init + [m],
                         |Stream(init)| + |Pack(NO_SESSION, m)|)
  {
    hide Pack, Expected, Stream, ExpectedAll;
    TakeOfMore(init, m);
    AllFitMore(init, m);
    StreamOfMore(init, m);
    ExpectedOfMore(init, m);
  }

  lemma ParsedStopped(p: Parsed, init: seq<Message>, m: Message, arrived: nat)
    requires AllFit(init) && Fits(m) && ParsedPrefix(p, init, |Stream(init)|) && p.end != NeedMore
    requires |Stream(init)| <= arrived
    ensures AllFit(init + [m]) && ParsedPrefix(p, init + [m], arrived)
  {
    hide Pack, Expected;
    assert (init + [m])[..|p.requests|] == init[..|p.requests|];
  }

  lemma ParseLastMessage(h: Handler, init: seq<Message>, m: Message, part: bytes)
    requires AllFit(init) && Fits(m) && ParsedPrefix(Parse(h, [], Stream(init)), init, |Stream(init)|)
    requires part <= Pack(NO_SESSION, m)
    ensures AllFit(init + [m])
    ensures ParsedPrefix(Parse(h, [], Stream(init) + part), init + [m], |Stream(init) + part|)
  {
    hide Parse, ReadFrame, Pack, Expected, ParsedPrefix, Stream, ExpectedAll;
    var p := Parse(h, [], Stream(init));
    ParseSplits(h, [], Stream(init), part);
    if p.end == NeedMore {
      WholeStreamParsed(p, init);
      assert [] + p.requests == p.requests && Stream(init)[p.used..] + part == part;
      ParsePart(h, p.requests, m, part);
      if part == Pack(NO_SESSION, m) {
        var q := Parse(h, p.requests, part);
        ParsedAll(init, m, p.used + q.used, q.end);
      } else {
        assert p.requests + [] == p.requests;
        ParsedAllButPart(init, m, |Stream(init) + part|);
      }
    } else {
      ParsedStopped(p, init, m, |Stream(init) + part|);
    }
  }

  /** Whatever part of a stream of messages has arrived, in whatever chunks: the requests dispatched are a prefix of the
      messages sent, every one that arrived whole unless the service stopped the connection; then the input buffer
      holds the arrived part of the next message and nothing else. */
  lemma DeliveredPrefix(h: Handler, ms: seq<Message>, chunks: seq<bytes>)
    requires AllFit(ms)
    requires Flatten(chunks) <= Stream(ms) && Uninterrupted(h, Flatten(chunks))
    ensures var r := ReceiveAll(h, chunks);
            var k := |r.seen|;
            && k <= |ms| && r.seen == ExpectedAll(ms[..k]) && |Stream(ms[..k])| <= |Flatten(chunks)|
            && r.end != Undefined
            && (r.end == NeedMore ==>
                  && r.input == Flatten(chunks)[|Stream(ms[..k])|..]
                  && (k < |ms| ==> |Flatten(chunks)| < |Stream(ms[..k + 1])|))
  {
    hide ReadFrame, Parse, Stream, Flatten, Expected;
    FragmentationIndependence(h, chunks);
    ParsePrefixOfStream(h, ms, Flatten(chunks));
  }

  /** A peer that only sends messages which fit an input buffer of max bytes never leaves a full buffer behind. */
  lemma InputNeverFull(h: Handler, ms: seq<Message>, chunks: seq<bytes>, max: nat)
    requires AllFit(ms) && 0 < max
    requires forall i :: 0 <= i < |ms| ==> HEADER_SIZE + |ms[i].body| <= max
    requires Flatten(chunks) <= Stream(ms) && Uninterrupted(h, Flatten(chunks))
    ensures ReceiveAll(h, chunks).end == NeedMore ==> |ReceiveAll(h, chunks).input| < max
  {
    hide ReadFrame, Parse, Flatten, Expected, Pack;
    DeliveredPrefix(h, ms, chunks);
    var r := ReceiveAll(h, chunks);
    var k := |r.seen|;
    if r.end == NeedMore {
      if k < |ms| {
        assert ms[..k + 1][..k] == ms[..k] && ms[..k + 1][k] == ms[k];
        PackIsNotEmpty(ms[k]);
      } else {
        assert ms[..k] == ms;
      }
    }
  }

  /** Without any assumption on the peer: a buffer that is full to its maximum holds the start of a frame that is
      larger than the buffer. */
  lemma FullBufferHoldsTooLargeFrame(h: Handler, chunks: seq<bytes>, max: nat)
    requires JSON_HEADER_SIZE <= max && Uninterrupted(h, Flatten(chunks))
    ensures var r := ReceiveAll(h, chunks);
            r.end == NeedMore && |r.input| >= max ==>
              GetProtoType(Decode32(r.input[4..8])).1 + JSON_HEADER_SIZE > max
  {
    hide Decode32;
    FragmentationIndependence(h, chunks);
  }

  // ---- an interrupted service is given requests again ----

  /** A service that is interrupted by the first request it is given and by no other. */
  function InterruptedOnce(): Handler {
    (rs: seq<Request>) => if |rs| == 1 then Interrupt else Continue
  }

  lemma FirstInterrupts(m: Message)
    requires Fits(m)
    ensures ReceiveAll(InterruptedOnce(), [Pack(NO_SESSION, m)])
            == Receiver(Pack(NO_SESSION, m), [Expected(NO_SESSION, m)], NeedMore)
  {
    hide Parse, ReadFrame, Pack, Expected;
    var a, none: seq<bytes> := Pack(NO_SESSION, m), [];
    assert [a][..0] == none && [] + a == a;
    ParsePart(InterruptedOnce(), [], m, a);
  }

  /** Two messages, each arriving whole: the first is dispatched, kept, and dispatched again when the second arrives. */
  lemma InterruptedServiceSeesTwice(m: Message, n: Message)
    requires Fits(m) && Fits(n)
    ensures var e, f := Expected(NO_SESSION, m), Expected(NO_SESSION, n);
            ReceiveAll(InterruptedOnce(), [Pack(NO_SESSION, m), Pack(NO_SESSION, n)]).seen == [e, e, f]
  {
    hide Parse, ReadFrame, Pack, Expected;
    var h, e, f := InterruptedOnce(), Expected(NO_SESSION, m), Expected(NO_SESSION, n);
    var a, b := Pack(NO_SESSION, m), Pack(NO_SESSION, n);
    assert [a, b][..1] == [a];
    FirstInterrupts(m);
    ParseSplits(h, [e], a, b);
    ParsePart(h, [e], m, a);
    assert [e] + [e] == [e, e] && a[|a|..] + b == b;
    ParsePart(h, [e, e], n, b);
    assert Parse(h, [e], a + b).requests == [e] + [f];
  }
}

/** Cutting frames out of received bytes: ForwardBuf, JsonRequest and JsonProtoConsumer. */
module JsonConsumers {
  import opened Bytes
  import opened BinStreams
  import opened Frames

  /** A cursor over a received buffer that is never copied. */
  class ForwardBuf {
    const all: bytes
    var pos: nat

    ghost predicate Valid()
      reads this
    {
      pos <= |all|
    }

    constructor (all: bytes)
      ensures Valid() && this.all == all && pos == 0
    {
      this.all, pos := all, 0;
    }

    function Data(): bytes
      requires Valid()
      reads this
    {
      all[pos..]
    }

    function Size(): nat
      requires Valid()
      reads this
    {
      |all| - pos
    }

    predicate Empty()
      reads this
    {
      |all| == pos
    }

    method Erase(n: nat)
      requires Valid() && n <= Size()
      modifies this
      ensures Valid() && pos == old(pos) + n
    {
      pos := pos + n;
    }
  }

  class JsonRequest {
    const up: BinReadStream
    const proto: Proto
    var session: uint32
    var length: uint32
    var uri: byte

    constructor (data: bytes, proto: Proto)
      ensures fresh(up) && up.data == data && this.proto == proto
    {
      up := new BinReadStream(data);
      this.proto := proto;
      session, length, uri := *, *, *;
    }

    /** Reads the header; false stands for ReadStreamExn.  Tags other than json and bin read nothing. */
    method PopHeader() returns (ok: bool)
      modifies this, up
      ensures proto != Json && proto != Bin ==> ok && up.data == old(up.data)
      ensures proto == Json || proto == Bin ==> (ok <==> HEADER_SIZE <= |old(up.data)|)
      ensures (proto == Json || proto == Bin) && ok ==>
                Fields() == Request(Decode32(old(up.data)[..4]), Decode32(old(up.data)[4..8]), old(up.data)[8],
                                    old(up.data)[HEADER_SIZE..])
    {
      hide Decode32;
      if proto != Json && proto != Bin {
        return true;
      }
      ghost var data := up.data;
      var s := up.ReadUint32();
      if s.None? {
        return false;
      }
      session := s.value;
      var l := up.ReadUint32();
      if l.None? {
        return false;
      }
      length := l.value;
      assert data[4..][..4] == data[4..8];
      var u := up.ReadUint8();
      if u.None? {
        return false;
      }
      uri := u.value;
      assert data[8..] == [uri] + up.data;
      assert up.data == data[HEADER_SIZE..];
      return true;
    }

    function Fields(): Request
      reads this, up
    {
      Request(session, length, uri, up.data)
    }
  }

  /** onData's outcomes: the offset it returns, -1, or an exception, which may be an EAGAIN or EINTR of the service.
      Undetermined: the service was given a request whose uri was never set. */
  datatype OnDataResult = Offset(n: nat) | MinusOne | Threw(again: bool) | Undetermined

  /** The consumer of one connection, with the requests it has given to the service. */
  class JsonProtoConsumer {
    const service: Handler
    var seen: seq<Request>

    constructor (service: Handler)
      ensures this.service == service && seen == []
    {
      this.service := service;
      seen := [];
    }

    method DoRequest(request: Request) returns (v: Verdict)
      modifies this
      ensures seen == old(seen) + [request] && v == service(seen)
    {
      seen := seen + [request];
      v := service(seen);
    }

    /** The peeks at the header, the checks against what has arrived, and popHeader: what they find is ReadFrame. */
    method CutFrame(fb: ForwardBuf) returns (c: Cut)
      requires fb.Valid()
      ensures c == ReadFrame(fb.Data())
    {
      hide Decode32;
      var data := fb.Data();
      if fb.Size() < JSON_HEADER_SIZE {
        return More;
      }
      var length := Decode32(data[4..8]);
      var (proto, stated) := GetProtoType(length);
      var frameLen := stated + JSON_HEADER_SIZE;
      if fb.Size() < frameLen {
        return More;
      }
      var frame := data[..frameLen];
      assert frame[..4] == data[..4] && frame[4..8] == data[4..8];
      var request := new JsonRequest(frame, proto);
      var popped := request.PopHeader();
      if !popped {
        return Malformed;
      }
      if proto != Json && proto != Bin {
        return Unset;
      }
      assert frame[HEADER_SIZE..] == data[HEADER_SIZE..frameLen];
      return Frame(request.Fields(), frameLen);
    }

    /** One round of the loop: the next frame, if it is whole, goes to the service. */
    method Round(fb: ForwardBuf) returns (c: Cut, v: Verdict)
      requires fb.Valid()
      modifies this, fb
      ensures fb.Valid()
      ensures c == ReadFrame(old(fb.Data()))
      ensures if c.Frame? then seen == old(seen) + [c.request] && v == service(seen) else seen == old(seen)
      ensures if c.Frame? && v == Continue then fb.pos == old(fb.pos) + c.size else fb.pos == old(fb.pos)
    {
      hide ReadFrame;
      c := CutFrame(fb);
      v := Raise;
      if c.Frame? {
        v := DoRequest(c.request);
        if v == Continue {
          fb.Erase(c.size);
        }
      }
    }

    /** The frame-cutting loop is Parse: same requests in the same order, same offset, same reason to stop. */
    method OnData(buf: bytes) returns (r: OnDataResult)
      modifies this
      ensures var p := Parse(service, old(seen), buf);
              && seen == old(seen) + p.requests
              && r == Returned(p)
    {
      hide ReadFrame, Parse, After;
      var fb := new ForwardBuf(buf);
      ghost var start, done: seq<Request> := seen, [];
      assert buf[0..] == buf && seen + [] == seen;
      AfterNothing(Parse(service, seen, buf));
      while !fb.Empty()
        invariant fb.Valid() && fb.all == buf && fresh(fb)
        invariant seen == start + done && start == old(seen)
        invariant Parse(service, start, buf) == After(done, fb.pos, Parse(service, seen, buf[fb.pos..]))
        decreases |buf| - fb.pos
      {
        ghost var before, pos := seen, fb.pos;
        var c, v := Round(fb);
        RoundInParse(service, start, done, buf, pos, c);
        if !c.Frame? || v != Continue {
          return match c
                 case More => Offset(fb.pos)
                 case Unset => Undetermined
                 case Malformed => Threw(false)
                 case Frame(_, _) => if v == Reject then MinusOne else Threw(v == Interrupt);
        }
        done := done + [c.request];
      }
      ParseNothing(service, seen);
      AfterLast(done, fb.pos, [], NeedMore);
      return Offset(fb.pos);
    }
  }

  /** What onData returns for how the parse ended. */
  function Returned(p: Parsed): OnDataResult {
    match p.end
    case NeedMore => Offset(p.used)
    case Rejected => MinusOne
    case Raised => Threw(false)
    case Interrupted => Threw(true)
    case Undefined => Undetermined
  }

  /** What one round says about the whole parse. */
  lemma RoundInParse(h: Handler, start: seq<Request>, done: seq<Request>, buf: bytes, pos: nat, c: Cut)
    requires pos <= |buf| && c == ReadFrame(buf[pos..])
    requires Parse(h, start, buf) == After(done, pos, Parse(h, start + done, buf[pos..]))
    ensures Parse(h, start, buf) ==
            match c
            case More => Parsed(done, pos, NeedMore)
            case Malformed => Parsed(done, pos, Raised)
            case Unset => Parsed(done, pos, Undefined)
            case Frame(request, size) =>
              match h(start + done + [request])
              case Reject => Parsed(done + [request], pos, Rejected)
              case Raise => Parsed(done + [request], pos, Raised)
              case Interrupt => Parsed(done + [request], pos, Interrupted)
              case Continue => After(done + [request], pos + size, Parse(h, start + (done + [request]), buf[pos + size..]))
    ensures c.Frame? ==> start + done + [c.request] == start + (done + [c.request])
  {
    hide ReadFrame, Parse;
    var data := buf[pos..];
    ParseRound(h, start + done, data);
    assert done + [] == done;
    if c.Frame? {
      assert data[c.size..] == buf[pos + c.size..];
      assert start + done + [c.request] == start + (done + [c.request]);
      AfterAfter(done, pos, [c.request], c.size, Parse(h, start + (done + [c.request]), data[c.size..]));
    }
  }

  lemma AfterLast(done: seq<Request>, used: nat, last: seq<Request>, end: End)
    ensures After(done, used, Parsed(last, 0, end)) == Parsed(done + last, used, end)
    ensures last == [] ==> done + last == done
  {
  }
}

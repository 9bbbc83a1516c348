/** Packing a message: core/base/Sender.cpp and JsonSender.cpp over the PackBuffer of ByteStream.h.
    A header stream at offset 0 and a body stream at offset HEADER_SIZE share one buffer. */
module JsonSenders {
  import opened Bytes
  import opened BlockBuffers
  import opened Frames

  // PackBuffer's instantiation of BlockBuffer
  const PACK_BLOCK_SIZE := 0x4000
  const PACK_MAX_BLOCKS := 0x1_0000

  class JsonSender {
    const pb: BlockBuffer
    const session: uint32
    var uri: byte
    var len: uint32     // never initialised by the constructors
    var raised: bool    // the constructor threw WriteStreamExn: there is no sender

    ghost predicate Valid()
      reads this, pb, pb.data
    {
      && pb.Valid()
      && (!raised ==> HEADER_SIZE <= pb.size)
    }

    ghost function Body(): bytes
      requires Valid() && !raised
      reads this, pb, pb.data
    {
      pb.Contents()[HEADER_SIZE..]
    }

    /** The constructor of (uri, object): body is what the object marshals.  It throws exactly when the packed message
        does not fit the pack buffer or a block cannot be had. */
    constructor (uri: byte, body: bytes, junk: uint32, counters: BlockCounters, mallocOk: bool)
      modifies counters
      ensures Valid() && fresh(pb) && pb.counters == counters
      ensures raised <==> !(HEADER_SIZE + |body| <= PACK_BLOCK_SIZE * PACK_MAX_BLOCKS && mallocOk)
      ensures !raised ==> Body() == body && this.uri == uri && session == NO_SESSION
      ensures old(counters.Valid()) ==> pb.Accounted() && pb.Others() == old(counters.live) - {pb}
    {
      var buffer := new BlockBuffer(PACK_BLOCK_SIZE, PACK_MAX_BLOCKS, counters);
      pb := buffer;
      session := NO_SESSION;
      this.uri := uri;
      len := junk;
      raised := false;
      new;
      var ok := Marshall(body, mallocOk);
      raised := !ok;
    }

    /** Leaves room for the header and appends what the object marshals; false: a write threw. */
    method Marshall(body: bytes, mallocOk: bool) returns (ok: bool)
      requires pb.Valid() && pb.data == null && pb.size == 0
      requires pb.blockSize == PACK_BLOCK_SIZE && pb.maxBlocks == PACK_MAX_BLOCKS
      modifies pb, pb.data, pb.counters
      ensures pb.Valid() && (pb.data != old(pb.data) ==> fresh(pb.data))
      ensures ok <==> HEADER_SIZE + |body| <= PACK_BLOCK_SIZE * PACK_MAX_BLOCKS && mallocOk
      ensures ok ==> HEADER_SIZE <= pb.size && pb.Contents()[HEADER_SIZE..] == body
      ensures old(pb.Accounted()) ==> pb.Accounted() && pb.Others() == old(pb.Others())
    {
      ok := pb.Resize(HEADER_SIZE, 0, mallocOk);
      if ok {
        pb.CapacityIsBounded();
        ok := pb.Append(body, mallocOk);
      }
    }

    /** BlockBuffer's replace with a field in network order: false stands for WriteStreamExn. */
    method ReplaceUint32(pos: nat, u32: uint32, mallocOk: bool) returns (ok: bool)
      requires pb.Valid()
      modifies pb, pb.data, pb.counters
      ensures pb.Valid() && (pb.data != old(pb.data) ==> fresh(pb.data))
      ensures ok <==> Replaceable(pos, 4, old(pb.size), old(pb.Capacity()), if mallocOk then pb.MaxSize() else 0)
      ensures pb.Contents() == ReplacedContents(old(pb.Contents()), pos, Encode32(u32), ok)
      ensures old(pb.Accounted()) ==> pb.Accounted() && pb.Others() == old(pb.Others())
    {
      hide Encode32;
      ok := pb.Replace(pos, Encode32(u32), mallocOk);
    }

    method ReplaceUint8(pos: nat, u8: byte, mallocOk: bool) returns (ok: bool)
      requires pb.Valid()
      modifies pb, pb.data, pb.counters
      ensures pb.Valid() && (pb.data != old(pb.data) ==> fresh(pb.data))
      ensures ok <==> Replaceable(pos, 1, old(pb.size), old(pb.Capacity()), if mallocOk then pb.MaxSize() else 0)
      ensures pb.Contents() == ReplacedContents(old(pb.Contents()), pos, [u8], ok)
      ensures old(pb.Accounted()) ==> pb.Accounted() && pb.Others() == old(pb.Others())
    {
      ok := pb.Replace(pos, [u8], mallocOk);
    }

    /** Replacing a field of the header, which is always there, overwrites it and cannot throw. */
    method PutUint32(pos: nat, u32: uint32)
      requires Valid() && !raised && pos + 4 <= HEADER_SIZE
      modifies pb, pb.data, pb.counters
      ensures Valid() && (pb.data != old(pb.data) ==> fresh(pb.data))
      ensures pb.Contents() == Overwrite(old(pb.Contents()), pos, Encode32(u32))
      ensures old(pb.Accounted()) ==> pb.Accounted() && pb.Others() == old(pb.Others())
    {
      hide Encode32, ReplacedContents, Replaceable;
      FieldFits(pb.Contents(), pos, Encode32(u32), pb.Capacity());
      var ok := ReplaceUint32(pos, u32, false);
    }

    method PutUint8(pos: nat, u8: byte)
      requires Valid() && !raised && pos + 1 <= HEADER_SIZE
      modifies pb, pb.data, pb.counters
      ensures Valid() && (pb.data != old(pb.data) ==> fresh(pb.data))
      ensures pb.Contents() == Overwrite(old(pb.Contents()), pos, [u8])
      ensures old(pb.Accounted()) ==> pb.Accounted() && pb.Others() == old(pb.Others())
    {
      hide ReplacedContents, Replaceable;
      FieldFits(pb.Contents(), pos, [u8], pb.Capacity());
      var ok := ReplaceUint8(pos, u8, false);
    }

    /** Fills the header in: whatever it held, the buffer then is the packed message, so packing twice, as an answer
        does, changes nothing more. */
    method EndPack()
      requires Valid() && !raised
      modifies pb, pb.data, pb.counters
      ensures Valid() && (pb.data != old(pb.data) ==> fresh(pb.data))
      ensures pb.Contents() == Pack(session, Message(uri, old(Body()))) && pb.size == old(pb.size)
      ensures old(pb.Accounted()) ==> pb.Accounted() && pb.Others() == old(pb.Others())
    {
      hide Encode32;
      ghost var before := pb.Contents();
      PutUint32(0, session);
      PutUint32(4, len);
      PutUint8(8, uri);
      PutUint32(4, Truncate32(1 + (pb.size - HEADER_SIZE)));
      HeaderOverwritten(before, Encode32(session), Encode32(len), uri, Encode32(Truncate32(1 + (|before| - HEADER_SIZE))));
    }
  }

  function Overwrite(c: bytes, pos: nat, rep: bytes): bytes
    requires pos + |rep| <= |c|
  {
    c[..pos] + rep + c[pos + |rep|..]
  }

  /** A field inside the contents is replaced; one that reaches the end cuts the contents there and is appended. */
  function ReplacedContents(c: bytes, pos: nat, rep: bytes, ok: bool): bytes {
    if pos + |rep| < |c| then Overwrite(c, pos, rep)
    else (if pos < |c| then c[..pos] else c) + if ok then rep else []
  }

  /** Either the field lies inside, or what it is appended to leaves room for it; available is how far memory goes. */
  predicate Replaceable(pos: nat, n: nat, size: nat, capacity: nat, available: nat) {
    pos + n < size || (var kept := if pos < size then pos else size; kept + n <= capacity || kept + n <= available)
  }

  /** A field that does not reach past the contents always fits and overwrites. */
  lemma FieldFits(c: bytes, pos: nat, rep: bytes, capacity: nat)
    requires pos + |rep| <= |c| <= capacity && |rep| > 0
    ensures Replaceable(pos, |rep|, |c|, capacity, 0)
    ensures ReplacedContents(c, pos, rep, true) == Overwrite(c, pos, rep)
  {
  }

  lemma HeaderOverwritten(c: bytes, session: bytes, junk: bytes, uri: byte, length: bytes)
    requires HEADER_SIZE <= |c| && |session| == |junk| == |length| == 4
    ensures Overwrite(Overwrite(Overwrite(Overwrite(c, 0, session), 4, junk), 8, [uri]), 4, length)
            == session + length + [uri] + c[HEADER_SIZE..]
  {
    var c1 := Overwrite(c, 0, session);
    assert c1 == session + c[4..];
    var c2 := Overwrite(c1, 4, junk);
    assert c2 == session + junk + c[8..];
    var c3 := Overwrite(c2, 8, [uri]);
    assert c3 == session + junk + [uri] + c[HEADER_SIZE..];
  }

  /** Packing what is packed already is the identity. */
  lemma PackedStaysPacked(session: uint32, m: Message)
    ensures var c := Pack(session, m);
            Pack(session, Message(c[HEADER_SIZE - 1], c[HEADER_SIZE..])) == c
  {
  }
}

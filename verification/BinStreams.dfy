/** The two stream classes of core/base/ByteStream.h and the container loops over them. */
module BinStreams {
  import opened Bytes
  import opened Options
  import opened BlockBuffers
  import opened ByteStreams

  /** A cursor over received bytes: data is what has not been read.  None stands for ReadStreamExn. */
  class BinReadStream {
    var data: bytes

    constructor (data: bytes)
      ensures this.data == data
    {
      this.data := data;
    }

    method PopFetch(k: nat) returns (r: Option<bytes>)
      modifies this
      ensures r.Some? <==> k <= |old(data)|
      ensures if r.Some? then |r.value| == k && old(data) == r.value + data else data == old(data)
    {
      if |data| < k {
        return None;
      }
      r := Some(data[..k]);
      data := data[k..];
    }

    method ReadUint8() returns (r: Option<byte>)
      modifies this
      ensures r.Some? <==> 1 <= |old(data)|
      ensures if r.Some? then old(data) == [r.value] + data else data == old(data)
    {
      var b := PopFetch(1);
      return if b.Some? then Some(b.value[0]) else None;
    }

    method ReadUint16() returns (r: Option<uint16>)
      modifies this
      ensures r.Some? <==> 2 <= |old(data)|
      ensures if r.Some? then r.value == Decode16(old(data)[..2]) && data == old(data)[2..] else data == old(data)
    {
      var b := PopFetch(2);
      return if b.Some? then Some(Decode16(b.value)) else None;
    }

    method ReadUint32() returns (r: Option<uint32>)
      modifies this
      ensures r.Some? <==> 4 <= |old(data)|
      ensures if r.Some? then r.value == Decode32(old(data)[..4]) && data == old(data)[4..] else data == old(data)
    {
      var b := PopFetch(4);
      return if b.Some? then Some(Decode32(b.value)) else None;
    }

    method ReadUint64() returns (r: Option<uint64>)
      modifies this
      ensures r.Some? <==> 8 <= |old(data)|
      ensures if r.Some? then r.value == Decode64(old(data)[..8]) && data == old(data)[8..] else data == old(data)
    {
      var b := PopFetch(8);
      return if b.Some? then Some(Decode64(b.value)) else None;
    }

    /** operator>>, for every type: what it yields and where it stops is Unmarshal. */
    method Read(t: Schema) returns (r: Option<Value>)
      modifies this
      ensures Unmarshal(t, old(data)) == if r.Some? then Some((r.value, data)) else None
      decreases t.Size(), 1
    {
      hide Decode16, Decode32, Decode64;
      match t {
        case U8 =>
          var n := ReadUint8();
          return if n.Some? then Some(Number(n.value)) else None;
        case U16 =>
          var n := ReadUint16();
          return if n.Some? then Some(Number(n.value)) else None;
        case U32 =>
          var n := ReadUint32();
          return if n.Some? then Some(Number(n.value)) else None;
        case U64 =>
          var n := ReadUint64();
          return if n.Some? then Some(Number(n.value)) else None;
        case Bool =>
          var n := ReadUint8();
          return if n.Some? then Some(Flag(n.value != 0)) else None;
        case Str =>
          r := ReadVarstr();
        case Pair(a, b) =>
          var p := Read(a);
          if p.None? {
            return None;
          }
          var q := Read(b);
          return if q.Some? then Some(Two(p.value, q.value)) else None;
        case _ =>
          r := ReadContainer(t);
      }
    }

    method ReadVarstr() returns (r: Option<Value>)
      modifies this
      ensures Unmarshal(Str, old(data)) == if r.Some? then Some((r.value, data)) else None
    {
      hide Decode16;
      var n := ReadUint16();
      if n.None? {
        return None;
      }
      ghost var start := data;
      var s := PopFetch(n.value);
      assert s.Some? ==> start == s.value + data && data == start[n.value..];
      assert s.Some? ==> old(data)[2..2 + n.value] == s.value && old(data)[2 + n.value..] == data;
      return if s.Some? then Some(Text(s.value)) else None;
    }

    /** Reads a count, then that many items, each inserted as it comes. */
    method ReadContainer(t: Schema) returns (r: Option<Value>)
      requires t.Container()
      modifies this
      ensures Unmarshal(t, old(data)) == if r.Some? then Some((r.value, data)) else None
      decreases t.Size(), 0
    {
      hide Decode32, Insert, Unmarshal, UnmarshalItems;
      UnmarshalCounted(t, data);
      var size := ReadUint32();
      if size.None? {
        return None;
      }
      var count := size.value;
      ghost var start := data;
      var container: seq<Value> := [];
      ghost var items: seq<Value> := [];
      PrependNothing(UnmarshalItems(t.Item(), count, start));
      while count > 0
        invariant 0 <= count
        invariant UnmarshalItems(t.Item(), size.value, start) == Prepend(items, UnmarshalItems(t.Item(), count, data))
        invariant container == if t.Vector? then items else InsertAll(t, items)
      {
        ghost var before := data;
        var item := Read(t.Item());
        UnmarshalNext(t.Item(), items, count, before);
        if item.None? {
          return None;
        }
        container := if t.Vector? then container + [item.value] else Insert(t, container, item.value);
        assert (items + [item.value])[..|items|] == items;
        items := items + [item.value];
        count := count - 1;
      }
      UnmarshalNone(t.Item(), data);
      assert items + [] == items;
      return Some(Many(container));
    }
  }

  /** A container is a count and that many items. */
  lemma UnmarshalCounted(t: Schema, data: bytes)
    requires t.Container()
    ensures Unmarshal(t, data) ==
            if |data| < 4 then None else
            match UnmarshalItems(t.Item(), Decode32(data[..4]), data[4..])
            case None => None
            case Some(p) => Some((Collect(t, p.0), p.1))
  {
    hide Decode32;
  }

  lemma PrependNothing(r: Option<(seq<Value>, bytes)>)
    ensures Prepend([], r) == r
  {
    if r.Some? {
      assert [] + r.value.0 == r.value.0;
    }
  }

  lemma UnmarshalNext(t: Schema, items: seq<Value>, count: nat, data: bytes)
    requires count > 0
    ensures Prepend(items, UnmarshalItems(t, count, data)) ==
            match Unmarshal(t, data)
            case None => None
            case Some(p) => Prepend(items + [p.0], UnmarshalItems(t, count - 1, p.1))
  {
    hide Unmarshal;
    assert forall x: Value, q: seq<Value> :: items + ([x] + q) == items + [x] + q;
  }

  lemma UnmarshalNone(t: Schema, data: bytes)
    ensures UnmarshalItems(t, 0, data) == Some(([], data))
  {
  }

  ghost function Prepend(items: seq<Value>, r: Option<(seq<Value>, bytes)>): Option<(seq<Value>, bytes)> {
    if r.None? then None else Some((items + r.value.0, r.value.1))
  }

  /** Appends to a pack buffer; false stands for WriteStreamExn, after which the buffer holds part of the value. */
  class BinWriteStream {
    const buffer: BlockBuffer

    constructor (buffer: BlockBuffer)
      ensures this.buffer == buffer
    {
      this.buffer := buffer;
    }

    /** m was appended to start, or there was a reason to throw. */
    ghost predicate Outcome(ok: bool, mallocOk: bool, start: bytes, m: Option<bytes>)
      requires buffer.Valid()
      reads buffer, buffer.data
    {
      IsOutcome(ok, mallocOk, start, m, buffer.Contents(), buffer.MaxSize())
    }

    method WriteByte(s: bytes, mallocOk: bool) returns (ok: bool)
      requires buffer.Valid()
      modifies buffer, buffer.data, buffer.counters
      ensures buffer.Valid() && (buffer.data != old(buffer.data) ==> fresh(buffer.data))
      ensures old(buffer.Accounted()) ==> buffer.Accounted() && buffer.Others() == old(buffer.Others())
      ensures Outcome(ok, mallocOk, old(buffer.Contents()), Some(s))
    {
      buffer.CapacityIsBounded();
      ok := buffer.Append(s, mallocOk);
    }

    /** operator<<, for every type: it appends what Marshal says, or throws; with blocks to be had it throws only when
        a string is too long or the buffer's maximum would be passed. */
    method Write(v: Value, t: Schema, mallocOk: bool) returns (ok: bool)
      requires buffer.Valid() && HasType(v, t)
      modifies buffer, buffer.data, buffer.counters
      ensures buffer.Valid() && (buffer.data != old(buffer.data) ==> fresh(buffer.data))
      ensures old(buffer.Accounted()) ==> buffer.Accounted() && buffer.Others() == old(buffer.Others())
      ensures Outcome(ok, mallocOk, old(buffer.Contents()), Marshal(v, t))
      decreases v, 2
    {
      hide Encode16, Encode32, Encode64, Outcome;
      match v {
        case Number(n) =>
          ok := WriteByte(if t.U8? then [n] else if t.U16? then Encode16(n) else if t.U32? then Encode32(n) else Encode64(n),
                          mallocOk);
        case Flag(b) =>
          ok := WriteByte([if b then 1 else 0], mallocOk);
        case Text(s) =>
          ok := WriteVarstr(s, mallocOk);
        case Two(a, b) =>
          ok := WritePair(a, b, t, mallocOk);
        case Many(items) =>
          ok := WriteContainer(items, t, mallocOk);
      }
    }

    method WriteVarstr(s: bytes, mallocOk: bool) returns (ok: bool)
      requires buffer.Valid()
      modifies buffer, buffer.data, buffer.counters
      ensures buffer.Valid() && (buffer.data != old(buffer.data) ==> fresh(buffer.data))
      ensures old(buffer.Accounted()) ==> buffer.Accounted() && buffer.Others() == old(buffer.Others())
      ensures Outcome(ok, mallocOk, old(buffer.Contents()), Marshal(Text(s), Str))
    {
      hide Encode16;
      if |s| > MAX_VARSTR {
        return false;
      }
      hide IsOutcome;
      var first := WriteByte(Encode16(|s|), mallocOk);
      ok := first;
      ghost var mid := buffer.Contents();
      if first {
        ok := WriteByte(s, mallocOk);
      }
      OutcomeThen(first, ok, mallocOk, old(buffer.Contents()), Some(Encode16(|s|)), mid, Some(s),
                  buffer.Contents(), buffer.MaxSize());
    }

    method WritePair(a: Value, b: Value, t: Schema, mallocOk: bool) returns (ok: bool)
      requires buffer.Valid() && HasType(Two(a, b), t)
      modifies buffer, buffer.data, buffer.counters
      ensures buffer.Valid() && (buffer.data != old(buffer.data) ==> fresh(buffer.data))
      ensures old(buffer.Accounted()) ==> buffer.Accounted() && buffer.Others() == old(buffer.Others())
      ensures Outcome(ok, mallocOk, old(buffer.Contents()), Marshal(Two(a, b), t))
      decreases Two(a, b), 1
    {
      hide IsOutcome;
      var first := Write(a, t.first, mallocOk);
      ok := first;
      ghost var mid := buffer.Contents();
      if first {
        ok := Write(b, t.second, mallocOk);
      }
      OutcomeThen(first, ok, mallocOk, old(buffer.Contents()), Marshal(a, t.first), mid, Marshal(b, t.second),
                  buffer.Contents(), buffer.MaxSize());
    }

    method WriteContainer(items: seq<Value>, t: Schema, mallocOk: bool) returns (ok: bool)
      requires buffer.Valid() && HasType(Many(items), t)
      modifies buffer, buffer.data, buffer.counters
      ensures buffer.Valid() && (buffer.data != old(buffer.data) ==> fresh(buffer.data))
      ensures old(buffer.Accounted()) ==> buffer.Accounted() && buffer.Others() == old(buffer.Others())
      ensures Outcome(ok, mallocOk, old(buffer.Contents()), Marshal(Many(items), t))
      decreases Many(items), 1
    {
      hide Encode32, IsOutcome;
      var first := WriteByte(Encode32(Truncate32(|items|)), mallocOk);
      ok := first;
      ghost var mid := buffer.Contents();
      if first {
        ok := WriteItems(items, t.Item(), mallocOk);
      }
      OutcomeThen(first, ok, mallocOk, old(buffer.Contents()), Some(Encode32(Truncate32(|items|))), mid,
                  MarshalItems(items, t.Item()), buffer.Contents(), buffer.MaxSize());
    }

    /** The loop over a container's items. */
    method WriteItems(items: seq<Value>, t: Schema, mallocOk: bool) returns (ok: bool)
      requires buffer.Valid() && forall i :: 0 <= i < |items| ==> HasType(items[i], t)
      modifies buffer, buffer.data, buffer.counters
      ensures buffer.Valid() && (buffer.data != old(buffer.data) ==> fresh(buffer.data))
      ensures old(buffer.Accounted()) ==> buffer.Accounted() && buffer.Others() == old(buffer.Others())
      ensures Outcome(ok, mallocOk, old(buffer.Contents()), MarshalItems(items, t))
      decreases items, 0
    {
      hide HasType, Marshal, IsOutcome, MarshalItems, BlockBuffer.Accounted, BlockBuffer.Others;
      ghost var start, done := buffer.Contents(), Some([]);
      ok := true;
      var i := 0;
      OutcomeNothing(mallocOk, start, buffer.MaxSize());
      ConcatNothing(MarshalItems(items, t));
      assert items[0..] == items;
      while ok && i < |items|
        invariant 0 <= i <= |items|
        invariant buffer.Valid() && (buffer.data != old(buffer.data) ==> fresh(buffer.data))
        invariant old(buffer.Accounted()) ==> buffer.Accounted() && buffer.Others() == old(buffer.Others())
        invariant IsOutcome(ok, mallocOk, start, done, buffer.Contents(), buffer.MaxSize())
        invariant MarshalItems(items, t) == Concat(done, MarshalItems(items[i..], t))
      {
        ghost var mid := buffer.Contents();
        ok := Write(items[i], t, mallocOk);
        ConcatNext(done, items, i, t);
        ghost var m := Marshal(items[i], t);
        OutcomeThen(true, ok, mallocOk, start, done, mid, m, buffer.Contents(), buffer.MaxSize());
        done := Concat(done, m);
        i := i + 1;
      }
      OutcomeNothing(mallocOk, buffer.Contents(), buffer.MaxSize());
      if ok {
        MarshalNothing(items[i..], t);
      }
      OutcomeThen(ok, ok, mallocOk, start, done, buffer.Contents(), MarshalItems(items[i..], t),
                  buffer.Contents(), buffer.MaxSize());
    }
  }

  ghost predicate IsOutcome(ok: bool, mallocOk: bool, start: bytes, m: Option<bytes>, after: bytes, max: nat) {
    if ok then m.Some? && after == start + m.value
    else !(mallocOk && m.Some? && |start| + |m.value| <= max)
  }

  ghost function Concat(a: Option<bytes>, b: Option<bytes>): Option<bytes> {
    if a.Some? && b.Some? then Some(a.value + b.value) else None
  }

  /** One write after another, the second only if the first did not throw. */
  lemma OutcomeThen(ok1: bool, ok2: bool, mallocOk: bool, start: bytes, a: Option<bytes>, mid: bytes, b: Option<bytes>,
                    after: bytes, max: nat)
    requires IsOutcome(ok1, mallocOk, start, a, mid, max)
    requires if ok1 then IsOutcome(ok2, mallocOk, mid, b, after, max) else !ok2
    ensures IsOutcome(ok2, mallocOk, start, Concat(a, b), after, max)
  {
  }

  lemma OutcomeNothing(mallocOk: bool, start: bytes, max: nat)
    ensures IsOutcome(true, mallocOk, start, Some([]), start, max)
  {
  }

  lemma ConcatNothing(m: Option<bytes>)
    ensures Concat(Some([]), m) == m
  {
    if m.Some? {
      assert [] + m.value == m.value;
    }
  }

  lemma MarshalNothing(items: seq<Value>, t: Schema)
    requires items == []
    ensures MarshalItems(items, t) == Some([])
  {
  }

  lemma ConcatNext(done: Option<bytes>, items: seq<Value>, i: nat, t: Schema)
    requires i < |items| && forall i :: 0 <= i < |items| ==> HasType(items[i], t)
    ensures Concat(done, MarshalItems(items[i..], t))
            == Concat(Concat(done, Marshal(items[i], t)), MarshalItems(items[i + 1..], t))
  {
    hide HasType, Marshal;
    assert items[i..][0] == items[i] && items[i..][1..] == items[i + 1..];
    if done.Some? {
      assert forall p: bytes, q: bytes :: done.value + (p + q) == done.value + p + q;
    }
  }
}

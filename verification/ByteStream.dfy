/** The wire codec of core/base/ByteStream.h: which bytes the write stream puts down for a value, what the read stream
    makes of bytes, and how the two fit together. */
module ByteStreams {
  import opened Bytes
  import opened Options

  // ---- values and their C++ types ----

  /** The C++ type the overloads of << and >> are chosen by. */
  datatype Schema =
    | U8 | U16 | U32 | U64 | Bool | Str
    | Pair(first: Schema, second: Schema)
    | Vector(element: Schema)
    | Set(element: Schema)
    | Map(key: Schema, value: Schema)
  {
    function Size(): nat {
      match this
      case Pair(a, b) => 1 + a.Size() + b.Size()
      case Vector(e) => 1 + e.Size()
      case Set(e) => 1 + e.Size()
      case Map(k, v) => 2 + k.Size() + v.Size()
      case _ => 1
    }

    /** What a container's iterator yields. */
    function Item(): (t: Schema)
      requires Container()
      ensures t.Size() < Size()
    {
      if Map? then Pair(key, value) else element
    }

    predicate Container() {
      Vector? || Set? || Map?
    }
  }

  /** Containers are listed in iteration order: for sets and maps, in the order of their keys. */
  datatype Value =
    | Number(n: nat)
    | Flag(b: bool)
    | Text(s: bytes)
    | Two(fst: Value, snd: Value)
    | Many(items: seq<Value>)

  // ---- the order of std::set and std::map ----

  function CompareInt(a: int, b: int): int {
    if a < b then -1 else if a > b then 1 else 0
  }

  function CompareBytes(a: bytes, b: bytes): int {
    if a == [] then (if b == [] then 0 else -1)
    else if b == [] then 1
    else if a[0] != b[0] then CompareInt(a[0], b[0])
    else CompareBytes(a[1..], b[1..])
  }

  /** operator< as a three-way comparison: negative when a < b, positive when b < a.  Pairs and containers compare
      lexicographically. */
  function Compare(a: Value, b: Value): int
    decreases a, 1
  {
    match (a, b)
    case (Number(m), Number(n)) => CompareInt(m, n)
    case (Flag(x), Flag(y)) => CompareInt(if x then 1 else 0, if y then 1 else 0)
    case (Text(s), Text(t)) => CompareBytes(s, t)
    case (Two(a1, a2), Two(b1, b2)) => var c := Compare(a1, b1); if c != 0 then c else Compare(a2, b2)
    case (Many(xs), Many(ys)) => CompareItems(xs, ys)
    case _ => 0
  }

  function CompareItems(xs: seq<Value>, ys: seq<Value>): int
    decreases xs, 0
  {
    if xs == [] then (if ys == [] then 0 else -1)
    else if ys == [] then 1
    else var c := Compare(xs[0], ys[0]); if c != 0 then c else CompareItems(xs[1..], ys[1..])
  }

  /** The part of an item a container orders by: a map's key, any other item itself. */
  function KeyOf(t: Schema, item: Value): Value {
    if t.Map? && item.Two? then item.fst else item
  }

  predicate Before(t: Schema, a: Value, b: Value) {
    Compare(KeyOf(t, a), KeyOf(t, b)) < 0
  }

  ghost predicate InOrder(t: Schema, items: seq<Value>) {
    forall i, j :: 0 <= i < j < |items| ==> Before(t, items[i], items[j])
  }

  ghost predicate HasType(v: Value, t: Schema)
    decreases v
  {
    match v
    case Number(n) =>
      (t.U8? && n < 0x100) || (t.U16? && n < 0x1_0000) || (t.U32? && n < 0x1_0000_0000)
      || (t.U64? && n < 0x1_0000_0000_0000_0000)
    case Flag(_) => t.Bool?
    case Text(_) => t.Str?
    case Two(a, b) => t.Pair? && HasType(a, t.first) && HasType(b, t.second)
    case Many(items) =>
      && t.Container()
      && (forall i :: 0 <= i < |items| ==> HasType(items[i], t.Item()))
      && (!t.Vector? ==> InOrder(t, items))
  }

  // ---- the bytes of a value ----

  const MAX_VARSTR := 0xFFFF

  /** None: writeVarstr throws.  A container is its size, as 32 bits, and its items. */
  function Marshal(v: Value, t: Schema): Option<bytes>
    requires HasType(v, t)
    decreases v, 1
  {
    match v
    case Number(n) =>
      Some(if t.U8? then [n] else if t.U16? then Encode16(n) else if t.U32? then Encode32(n) else Encode64(n))
    case Flag(b) => Some([if b then 1 else 0])
    case Text(s) => if |s| > MAX_VARSTR then None else Some(Encode16(|s|) + s)
    case Two(a, b) =>
      var p, q := Marshal(a, t.first), Marshal(b, t.second);
      if p.Some? && q.Some? then Some(p.value + q.value) else None
    case Many(items) =>
      var p := MarshalItems(items, t.Item());
      if p.Some? then Some(Encode32(Truncate32(|items|)) + p.value) else None
  }

  function MarshalItems(items: seq<Value>, t: Schema): Option<bytes>
    requires forall i :: 0 <= i < |items| ==> HasType(items[i], t)
    decreases items, 0
  {
    if items == [] then Some([]) else
    var p, q := Marshal(items[0], t), MarshalItems(items[1..], t);
    if p.Some? && q.Some? then Some(p.value + q.value) else None
  }

  // ---- what the read stream makes of bytes ----

  /** Inserting into a std::set or std::map: a key already there keeps its old item. */
  function Insert(t: Schema, items: seq<Value>, x: Value): seq<Value> {
    if items == [] then [x]
    else if Before(t, items[0], x) then [items[0]] + Insert(t, items[1..], x)
    else if Before(t, x, items[0]) then [x] + items
    else items
  }

  function InsertAll(t: Schema, items: seq<Value>): seq<Value> {
    if items == [] then [] else Insert(t, InsertAll(t, items[..|items| - 1]), items[|items| - 1])
  }

  function Collect(t: Schema, items: seq<Value>): Value {
    Many(if t.Vector? then items else InsertAll(t, items))
  }

  /** A value and the unread rest; None: ReadStreamExn. */
  function Unmarshal(t: Schema, data: bytes): Option<(Value, bytes)>
    decreases t.Size(), 0
  {
    match t
    case U8 => if |data| < 1 then None else Some((Number(data[0]), data[1..]))
    case U16 => if |data| < 2 then None else Some((Number(Decode16(data[..2])), data[2..]))
    case U32 => if |data| < 4 then None else Some((Number(Decode32(data[..4])), data[4..]))
    case U64 => if |data| < 8 then None else Some((Number(Decode64(data[..8])), data[8..]))
    case Bool => if |data| < 1 then None else Some((Flag(data[0] != 0), data[1..]))
    case Str =>
      if |data| < 2 then None else
      var n := Decode16(data[..2]);
      if |data| - 2 < n then None else Some((Text(data[2..2 + n]), data[2 + n..]))
    case Pair(a, b) =>
      var p := Unmarshal(a, data);
      if p.None? then None else
      var q := Unmarshal(b, p.value.1);
      if q.None? then None else Some((Two(p.value.0, q.value.0), q.value.1))
    case _ =>
      if |data| < 4 then None else
      var p := UnmarshalItems(t.Item(), Decode32(data[..4]), data[4..]);
      if p.None? then None else Some((Collect(t, p.value.0), p.value.1))
  }

  function UnmarshalItems(t: Schema, count: nat, data: bytes): (r: Option<(seq<Value>, bytes)>)
    ensures r.Some? ==> |r.value.0| == count
    decreases t.Size(), count
  {
    if count == 0 then Some(([], data)) else
    var p := Unmarshal(t, data);
    if p.None? then None else
    var q := UnmarshalItems(t, count - 1, p.value.1);
    if q.None? then None else Some(([p.value.0] + q.value.0, q.value.1))
  }
}

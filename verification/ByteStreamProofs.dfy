/** Reading undoes writing, and nothing shorter than a whole value reads as one. */
module ByteStreamProofs {
  import opened Bytes
  import opened Options
  import opened ByteStreams

  // ---- sets and maps are rebuilt as they were ----

  lemma {:induction false} InsertLast(t: Schema, items: seq<Value>, x: Value)
    requires forall i :: 0 <= i < |items| ==> Before(t, items[i], x)
    ensures Insert(t, items, x) == items + [x]
  {
    if items != [] {
      InsertLast(t, items[1..], x);
    }
  }

  lemma {:induction false} InsertAllInOrder(t: Schema, items: seq<Value>)
    requires InOrder(t, items)
    ensures InsertAll(t, items) == items
  {
    if items != [] {
      var init := items[..|items| - 1];
      InsertAllInOrder(t, init);
      InsertLast(t, init, items[|items| - 1]);
    }
  }

  // ---- every value takes at least one byte ----

  lemma {:induction false} MarshalTakesSpace(v: Value, t: Schema)
    requires HasType(v, t) && Marshal(v, t).Some?
    ensures |Marshal(v, t).value| > 0
    ensures v.Many? ==> |v.items| < |Marshal(v, t).value|
    decreases v, 1
  {
    match v {
      case Two(a, b) => MarshalTakesSpace(a, t.first);
      case Many(items) => MarshalItemsTakeSpace(items, t.Item());
      case _ =>
    }
  }

  lemma {:induction false} MarshalItemsTakeSpace(items: seq<Value>, t: Schema)
    requires forall i :: 0 <= i < |items| ==> HasType(items[i], t)
    requires MarshalItems(items, t).Some?
    ensures |items| <= |MarshalItems(items, t).value|
    decreases items, 0
  {
    if items != [] {
      MarshalTakesSpace(items[0], t);
      MarshalItemsTakeSpace(items[1..], t);
    }
  }

  // ---- round trip ----

  const MAX_PACK := 0x4000_0000  // what a PackBuffer holds: 65536 blocks of 16 KB

  /** Reading what was written yields the value and leaves exactly what followed it. */
  lemma {:induction false} RoundTrip(v: Value, t: Schema, rest: bytes)
    requires HasType(v, t) && Marshal(v, t).Some? && |Marshal(v, t).value| <= MAX_PACK
    ensures Unmarshal(t, Marshal(v, t).value + rest) == Some((v, rest))
    decreases v, 1
  {
    hide Encode16, Encode32, Encode64, Unmarshal;
    match v {
      case Number(n) => RoundTripNumber(n, t, rest);
      case Flag(b) => RoundTripFlag(b, rest);
      case Text(s) => RoundTripText(s, rest);
      case Two(a, b) => RoundTripTwo(a, b, t, rest);
      case Many(items) => RoundTripMany(items, t, rest);
    }
  }

  lemma {:induction false} RoundTripTwo(a: Value, b: Value, t: Schema, rest: bytes)
    requires HasType(Two(a, b), t)
    requires Marshal(Two(a, b), t).Some? && |Marshal(Two(a, b), t).value| <= MAX_PACK
    ensures Unmarshal(t, Marshal(Two(a, b), t).value + rest) == Some((Two(a, b), rest))
    decreases Two(a, b), 0
  {
    hide Unmarshal;
    var p, q := Marshal(a, t.first).value, Marshal(b, t.second).value;
    assert p + q + rest == p + (q + rest);
    RoundTrip(a, t.first, q + rest);
    RoundTrip(b, t.second, rest);
    UnmarshalPair(t, p + (q + rest));
  }

  lemma {:induction false} RoundTripMany(items: seq<Value>, t: Schema, rest: bytes)
    requires HasType(Many(items), t)
    requires Marshal(Many(items), t).Some? && |Marshal(Many(items), t).value| <= MAX_PACK
    ensures Unmarshal(t, Marshal(Many(items), t).value + rest) == Some((Many(items), rest))
    decreases Many(items), 0
  {
    ManyParts(items, t);
    RoundTripContainer(items, t, rest);
  }

  lemma {:induction false} RoundTripContainer(items: seq<Value>, t: Schema, rest: bytes)
    requires t.Container() && (forall i :: 0 <= i < |items| ==> HasType(items[i], t.Item()))
    requires !t.Vector? ==> InOrder(t, items)
    requires MarshalItems(items, t.Item()).Some? && |MarshalItems(items, t.Item()).value| <= MAX_PACK
    ensures Unmarshal(t, Encode32(Truncate32(|items|)) + MarshalItems(items, t.Item()).value + rest)
            == Some((Many(items), rest))
    decreases items, 1
  {
    hide *;
    var n, q := |items|, MarshalItems(items, t.Item()).value;
    MarshalItemsTakeSpace(items, t.Item());
    SmallCount(n);
    RoundTripItems(items, t.Item(), rest);
    UnmarshalContainer(t, n, q + rest);
    assert Encode32(n) + q + rest == Encode32(n) + (q + rest);
    CollectInOrder(t, items);
  }

  lemma CollectInOrder(t: Schema, items: seq<Value>)
    requires !t.Vector? ==> InOrder(t, items)
    ensures Collect(t, items) == Many(items)
  {
    if !t.Vector? {
      InsertAllInOrder(t, items);
    }
  }

  lemma SmallCount(n: nat)
    requires n <= MAX_PACK
    ensures Truncate32(n) == n
  {
  }

  /** What a typed container consists of, and what its bytes do. */
  lemma ManyParts(items: seq<Value>, t: Schema)
    requires HasType(Many(items), t)
    ensures t.Container() && (forall i :: 0 <= i < |items| ==> HasType(items[i], t.Item()))
    ensures !t.Vector? ==> InOrder(t, items)
    ensures var m := MarshalItems(items, t.Item());
            Marshal(Many(items), t) == if m.Some? then Some(Encode32(Truncate32(|items|)) + m.value) else None
  {
  }

  lemma UnmarshalPair(t: Schema, data: bytes)
    requires t.Pair? && Unmarshal(t.first, data).Some?
    requires Unmarshal(t.second, Unmarshal(t.first, data).value.1).Some?
    ensures var p := Unmarshal(t.first, data).value;
            var q := Unmarshal(t.second, p.1).value;
            Unmarshal(t, data) == Some((Two(p.0, q.0), q.1))
  {
  }

  lemma UnmarshalContainer(t: Schema, count: uint32, data: bytes)
    requires t.Container() && UnmarshalItems(t.Item(), count, data).Some?
    ensures var r := UnmarshalItems(t.Item(), count, data).value;
            Unmarshal(t, Encode32(count) + data) == Some((Collect(t, r.0), r.1))
  {
    hide Encode32, Decode32;
    Encode32IsBigEndian(count);
    assert (Encode32(count) + data)[..4] == Encode32(count) && (Encode32(count) + data)[4..] == data;
  }

  lemma RoundTripFlag(b: bool, rest: bytes)
    ensures Unmarshal(Bool, [if b then 1 else 0] + rest) == Some((Flag(b), rest))
  {
  }

  lemma RoundTripText(s: bytes, rest: bytes)
    requires |s| <= MAX_VARSTR
    ensures Unmarshal(Str, Encode16(|s|) + s + rest) == Some((Text(s), rest))
  {
    hide Encode16, Decode16;
    Encode16IsBigEndian(|s|);
    var data := Encode16(|s|) + s + rest;
    assert data[..2] == Encode16(|s|) && data[2..2 + |s|] == s && data[2 + |s|..] == rest;
  }

  lemma RoundTripNumber(n: nat, t: Schema, rest: bytes)
    requires HasType(Number(n), t)
    ensures Unmarshal(t, Marshal(Number(n), t).value + rest) == Some((Number(n), rest))
  {
    hide Encode16, Encode32, Encode64, Decode16, Decode32, Decode64;
    var data := Marshal(Number(n), t).value + rest;
    match t {
      case U16 => Encode16IsBigEndian(n); assert data[..2] == Encode16(n) && data[2..] == rest;
      case U32 => Encode32IsBigEndian(n); assert data[..4] == Encode32(n) && data[4..] == rest;
      case U64 => Encode64IsBigEndian(n); assert data[..8] == Encode64(n) && data[8..] == rest;
      case _ =>
    }
  }

  lemma {:induction false} RoundTripItems(items: seq<Value>, t: Schema, rest: bytes)
    requires forall i :: 0 <= i < |items| ==> HasType(items[i], t)
    requires MarshalItems(items, t).Some? && |MarshalItems(items, t).value| <= MAX_PACK
    ensures UnmarshalItems(t, |items|, MarshalItems(items, t).value + rest) == Some((items, rest))
    decreases items, 0
  {
    hide Marshal, Unmarshal, HasType;
    if items == [] {
      assert [] + rest == rest;
    } else {
      var p, q := Marshal(items[0], t).value, MarshalItems(items[1..], t).value;
      assert p + q + rest == p + (q + rest) && [items[0]] + items[1..] == items;
      RoundTrip(items[0], t, q + rest);
      RoundTripItems(items[1..], t, rest);
    }
  }

  // ---- what was read stays read when more arrives ----

  lemma {:induction false} UnmarshalExtends(t: Schema, data: bytes, more: bytes)
    requires Unmarshal(t, data).Some?
    ensures Unmarshal(t, data + more) == Some((Unmarshal(t, data).value.0, Unmarshal(t, data).value.1 + more))
    decreases t.Size(), 0
  {
    hide Decode16, Decode32, Decode64;
    var all := data + more;
    match t {
      case U16 => assert all[..2] == data[..2] && all[2..] == data[2..] + more;
      case U32 => assert all[..4] == data[..4] && all[4..] == data[4..] + more;
      case U64 => assert all[..8] == data[..8] && all[8..] == data[8..] + more;
      case Str =>
        var n := Decode16(data[..2]);
        assert all[..2] == data[..2] && all[2..2 + n] == data[2..2 + n] && all[2 + n..] == data[2 + n..] + more;
      case Pair(a, b) =>
        UnmarshalExtends(a, data, more);
        UnmarshalExtends(b, Unmarshal(a, data).value.1, more);
      case U8 => assert all[1..] == data[1..] + more;
      case Bool => assert all[1..] == data[1..] + more;
      case _ =>
        assert all[..4] == data[..4] && all[4..] == data[4..] + more;
        UnmarshalItemsExtends(t.Item(), Decode32(data[..4]), data[4..], more);
    }
  }

  lemma {:induction false} UnmarshalItemsExtends(t: Schema, count: nat, data: bytes, more: bytes)
    requires UnmarshalItems(t, count, data).Some?
    ensures var r := UnmarshalItems(t, count, data).value;
            UnmarshalItems(t, count, data + more) == Some((r.0, r.1 + more))
    decreases t.Size(), count
  {
    hide Unmarshal;
    if count > 0 {
      UnmarshalExtends(t, data, more);
      UnmarshalItemsExtends(t, count - 1, Unmarshal(t, data).value.1, more);
    }
  }

  /** Every strict prefix of a written value is refused. */
  lemma StrictPrefixIsRefused(v: Value, t: Schema, n: nat)
    requires HasType(v, t) && Marshal(v, t).Some? && |Marshal(v, t).value| <= MAX_PACK
    requires n < |Marshal(v, t).value|
    ensures Unmarshal(t, Marshal(v, t).value[..n]) == None
  {
    hide Marshal, Unmarshal, HasType;
    var whole := Marshal(v, t).value;
    var part, more := whole[..n], whole[n..];
    if Unmarshal(t, part).Some? {
      UnmarshalExtends(t, part, more);
      assert part + more == whole == whole + [] && |more| > 0;
      RoundTrip(v, t, []);
    }
  }

  // ---- operator< is a strict total order on the values of one type ----

  lemma {:induction false} CompareBytesOrder(a: bytes, b: bytes, c: bytes)
    ensures CompareBytes(a, b) == -CompareBytes(b, a)
    ensures CompareBytes(a, b) == 0 ==> a == b
    ensures CompareBytes(a, b) <= 0 && CompareBytes(b, c) <= 0 ==>
              CompareBytes(a, c) <= 0 && (CompareBytes(a, c) == 0 ==> CompareBytes(a, b) == 0 == CompareBytes(b, c))
  {
    if a != [] && b != [] {
      CompareBytesOrder(a[1..], b[1..], if c == [] then [] else c[1..]);
      assert a == [a[0]] + a[1..] && b == [b[0]] + b[1..];
    }
  }

  lemma {:induction false} CompareOrder(t: Schema, a: Value, b: Value, c: Value)
    requires HasType(a, t) && HasType(b, t) && HasType(c, t)
    ensures Compare(a, b) == -Compare(b, a)
    ensures Compare(a, b) == 0 ==> a == b
    ensures Compare(a, b) <= 0 && Compare(b, c) <= 0 ==>
              Compare(a, c) <= 0 && (Compare(a, c) == 0 ==> Compare(a, b) == 0 == Compare(b, c))
    decreases a, 1
  {
    match a {
      case Number(_) =>
      case Flag(_) =>
      case Text(s) => CompareBytesOrder(s, b.s, c.s);
      case Two(a1, a2) =>
        CompareOrder(t.first, a1, b.fst, c.fst);
        CompareOrder(t.second, a2, b.snd, c.snd);
      case Many(items) => CompareItemsOrder(t.Item(), items, b.items, c.items);
    }
  }

  lemma {:induction false} CompareItemsOrder(t: Schema, xs: seq<Value>, ys: seq<Value>, zs: seq<Value>)
    requires forall i :: 0 <= i < |xs| ==> HasType(xs[i], t)
    requires forall i :: 0 <= i < |ys| ==> HasType(ys[i], t)
    requires forall i :: 0 <= i < |zs| ==> HasType(zs[i], t)
    ensures CompareItems(xs, ys) == -CompareItems(ys, xs)
    ensures CompareItems(xs, ys) == 0 ==> xs == ys
    ensures CompareItems(xs, ys) <= 0 && CompareItems(ys, zs) <= 0 ==>
              CompareItems(xs, zs) <= 0 && (CompareItems(xs, zs) == 0 ==> CompareItems(xs, ys) == 0 == CompareItems(ys, zs))
    decreases xs, 0
  {
    hide HasType, Compare;
    if xs != [] && ys != [] {
      CompareOrder(t, xs[0], ys[0], if zs == [] then ys[0] else zs[0]);
      CompareItemsOrder(t, xs[1..], ys[1..], if zs == [] then [] else zs[1..]);
      assert xs == [xs[0]] + xs[1..] && ys == [ys[0]] + ys[1..];
    }
  }

  /** The keys of a container's items, typed. */
  lemma KeyHasType(t: Schema, item: Value)
    requires t.Container() && HasType(item, t.Item())
    ensures HasType(KeyOf(t, item), if t.Map? then t.key else t.element)
  {
  }

  lemma BeforeIsTransitive(t: Schema, a: Value, b: Value, c: Value)
    requires t.Container() && HasType(a, t.Item()) && HasType(b, t.Item()) && HasType(c, t.Item())
    requires Before(t, a, b) && Before(t, b, c)
    ensures Before(t, a, c)
  {
    KeyHasType(t, a);
    KeyHasType(t, b);
    KeyHasType(t, c);
    CompareOrder(if t.Map? then t.key else t.element, KeyOf(t, a), KeyOf(t, b), KeyOf(t, c));
  }

  ghost predicate AllTyped(t: Schema, items: seq<Value>) {
    forall i :: 0 <= i < |items| ==> HasType(items[i], t)
  }

  lemma {:induction false} InsertKeepsOrder(t: Schema, items: seq<Value>, x: Value)
    requires t.Container() && AllTyped(t.Item(), items) && HasType(x, t.Item()) && InOrder(t, items)
    ensures AllTyped(t.Item(), Insert(t, items, x)) && InOrder(t, Insert(t, items, x))
    ensures forall i :: 0 <= i < |Insert(t, items, x)| ==> Insert(t, items, x)[i] in items || Insert(t, items, x)[i] == x
  {
    hide HasType, Before;
    if items != [] {
      if Before(t, items[0], x) {
        InsertKeepsOrder(t, items[1..], x);
      } else if Before(t, x, items[0]) {
        forall i | 0 < i < |items| ensures Before(t, x, items[i]) {
          BeforeIsTransitive(t, x, items[0], items[i]);
        }
      }
    }
  }

  lemma {:induction false} InsertAllIsOrdered(t: Schema, items: seq<Value>)
    requires t.Container() && AllTyped(t.Item(), items)
    ensures AllTyped(t.Item(), InsertAll(t, items)) && InOrder(t, InsertAll(t, items))
  {
    if items != [] {
      InsertAllIsOrdered(t, items[..|items| - 1]);
      InsertKeepsOrder(t, InsertAll(t, items[..|items| - 1]), items[|items| - 1]);
    }
  }

  // ---- of items with the same key the first stays ----

  /** No item before the i-th has its key. */
  ghost predicate FirstOfKey(t: Schema, items: seq<Value>, i: nat)
    requires i < |items|
  {
    forall j :: 0 <= j < i ==> KeyOf(t, items[j]) != KeyOf(t, items[i])
  }

  lemma SameKeyOrBefore(t: Schema, a: Value, b: Value)
    requires t.Container() && HasType(a, t.Item()) && HasType(b, t.Item())
    ensures KeyOf(t, a) == KeyOf(t, b) <==> !Before(t, a, b) && !Before(t, b, a)
  {
    KeyHasType(t, a);
    KeyHasType(t, b);
    CompareOrder(if t.Map? then t.key else t.element, KeyOf(t, a), KeyOf(t, b), KeyOf(t, b));
  }

  lemma {:induction false} InsertMembers(t: Schema, items: seq<Value>, x: Value)
    requires t.Container() && AllTyped(t.Item(), items) && HasType(x, t.Item()) && InOrder(t, items)
    ensures forall y :: y in Insert(t, items, x) <==>
              y in items || (y == x && forall z :: z in items ==> KeyOf(t, z) != KeyOf(t, x))
  {
    hide HasType, Before, KeyOf;
    if items != [] {
      SameKeyOrBefore(t, items[0], x);
      assert items == [items[0]] + items[1..];
      if Before(t, items[0], x) {
        InsertMembers(t, items[1..], x);
      } else if Before(t, x, items[0]) {
        forall z | z in items ensures KeyOf(t, z) != KeyOf(t, x) {
          var i :| 0 <= i < |items| && items[i] == z;
          if i > 0 {
            BeforeIsTransitive(t, x, items[0], z);
          }
          SameKeyOrBefore(t, x, z);
        }
      }
    }
  }

  lemma {:induction false} FirstOf(t: Schema, items: seq<Value>, j: nat) returns (i: nat)
    requires j < |items|
    ensures i <= j && KeyOf(t, items[i]) == KeyOf(t, items[j]) && FirstOfKey(t, items, i)
  {
    i := j;
    if !FirstOfKey(t, items, j) {
      var k :| 0 <= k < j && KeyOf(t, items[k]) == KeyOf(t, items[j]);
      i := FirstOf(t, items, k);
    }
  }

  /** A set or map read from bytes has exactly those items whose key does not come up earlier in the bytes. */
  lemma {:induction false} FirstKeyWins(t: Schema, items: seq<Value>)
    requires t.Container() && AllTyped(t.Item(), items)
    ensures forall y :: y in InsertAll(t, items) <==>
              exists i :: 0 <= i < |items| && items[i] == y && FirstOfKey(t, items, i)
  {
    hide HasType, KeyOf, Insert, FirstOfKey;
    if items != [] {
      var n := |items| - 1;
      var init, x := items[..n], items[n];
      FirstKeyWins(t, init);
      InsertAllIsOrdered(t, init);
      InsertMembers(t, InsertAll(t, init), x);
      forall i | 0 <= i < n ensures FirstOfKey(t, items, i) <==> FirstOfKey(t, init, i) {
        FirstInPrefix(t, items, n, i);
      }
      FirstIsNew(t, items);
    }
  }

  lemma FirstInPrefix(t: Schema, items: seq<Value>, n: nat, i: nat)
    requires i < n <= |items|
    ensures FirstOfKey(t, items, i) <==> FirstOfKey(t, items[..n], i)
  {
  }

  /** The last item's key is new exactly when no item that is first of its key has it. */
  lemma FirstIsNew(t: Schema, items: seq<Value>)
    requires items != []
    ensures var n := |items| - 1;
            FirstOfKey(t, items, n) <==>
            forall i :: 0 <= i < n && FirstOfKey(t, items[..n], i) ==> KeyOf(t, items[i]) != KeyOf(t, items[n])
  {
    hide KeyOf;
    var n := |items| - 1;
    if !FirstOfKey(t, items, n) {
      var j :| 0 <= j < n && KeyOf(t, items[j]) == KeyOf(t, items[n]);
      var i := FirstOf(t, items[..n], j);
    }
  }

  // ---- what the order is ----

  /** Numbers are ordered as numbers, false comes before true. */
  lemma NumbersInOrder(m: nat, n: nat)
    ensures Compare(Number(m), Number(n)) < 0 <==> m < n
    ensures Compare(Flag(false), Flag(true)) < 0
  {
  }

  /** Strings are ordered by the first byte in which they differ; a prefix comes first. */
  lemma {:induction false} BytesInOrder(a: bytes, b: bytes)
    ensures CompareBytes(a, b) < 0 <==> exists k :: 0 <= k <= |a| && LessAt(a, b, k)
  {
    if a != [] && b != [] {
      BytesInOrder(a[1..], b[1..]);
      if a[0] != b[0] {
        assert LessAt(a, b, 0) <==> a[0] < b[0];
      } else {
        forall k | 0 < k <= |a| ensures LessAt(a, b, k) <==> LessAt(a[1..], b[1..], k - 1) {
          LessBehindSame(a, b, k);
        }
        if j :| 0 <= j <= |a[1..]| && LessAt(a[1..], b[1..], j) {
          assert LessAt(a, b, j + 1);
        }
      }
    } else {
      assert LessAt(a, b, 0) <==> a == [] != b;
    }
  }

  ghost predicate LessAt(a: bytes, b: bytes, k: nat) {
    k <= |a| && k < |b| && a[..k] == b[..k] && (k < |a| ==> a[k] < b[k])
  }

  lemma LessBehindSame(a: bytes, b: bytes, k: nat)
    requires a != [] && b != [] && a[0] == b[0] && 0 < k
    ensures LessAt(a, b, k) <==> LessAt(a[1..], b[1..], k - 1)
  {
    if k <= |a| && k <= |b| {
      assert a[..k] == [a[0]] + a[1..][..k - 1] && b[..k] == [b[0]] + b[1..][..k - 1];
    }
  }

  /** Pairs are ordered by their first component, then by their second; containers by the first item in which they
      differ. */
  lemma PairsInOrder(t: Schema, a: Value, b: Value)
    requires t.Pair? && HasType(a, t) && HasType(b, t)
    ensures Compare(a, b) < 0 <==>
            Compare(a.fst, b.fst) < 0 || (a.fst == b.fst && Compare(a.snd, b.snd) < 0)
  {
    CompareOrder(t.first, a.fst, b.fst, b.fst);
    if a.fst == b.fst {
      assert Compare(a.fst, b.fst) == 0;
    }
  }

  lemma {:induction false} ItemsInOrder(xs: seq<Value>, ys: seq<Value>, k: nat)
    requires k <= |xs| && k < |ys| && forall i :: 0 <= i < k ==> Compare(xs[i], ys[i]) == 0
    ensures k == |xs| || Compare(xs[k], ys[k]) < 0 ==> CompareItems(xs, ys) < 0
    ensures k < |xs| && Compare(xs[k], ys[k]) > 0 ==> CompareItems(xs, ys) > 0
  {
    hide Compare;
    if k > 0 {
      ItemsInOrder(xs[1..], ys[1..], k - 1);
    }
  }

  /** Whatever bytes are read: a value that comes out has the type asked for, sets and maps with strictly ascending
      keys whatever order, and however many repetitions, the bytes had. */
  lemma {:induction false} UnmarshalIsTyped(t: Schema, data: bytes)
    requires Unmarshal(t, data).Some?
    ensures HasType(Unmarshal(t, data).value.0, t)
    decreases t.Size(), 0
  {
    hide Decode16, Decode32, Decode64;
    match t {
      case Pair(a, b) =>
        UnmarshalIsTyped(a, data);
        UnmarshalIsTyped(b, Unmarshal(a, data).value.1);
      case U8 => case U16 => case U32 => case U64 => case Bool => case Str =>
      case _ =>
        var items := UnmarshalItems(t.Item(), Decode32(data[..4]), data[4..]).value.0;
        UnmarshalItemsAreTyped(t.Item(), Decode32(data[..4]), data[4..]);
        InsertAllIsOrdered(t, items);
    }
  }

  lemma {:induction false} UnmarshalItemsAreTyped(t: Schema, count: nat, data: bytes)
    requires UnmarshalItems(t, count, data).Some?
    ensures AllTyped(t, UnmarshalItems(t, count, data).value.0)
    decreases t.Size(), count
  {
    hide Unmarshal, HasType;
    if count > 0 {
      UnmarshalIsTyped(t, data);
      UnmarshalItemsAreTyped(t, count - 1, Unmarshal(t, data).value.1);
    }
  }

  // ---- the layout ----

  function Width(t: Schema): nat {
    if t.U8? then 1 else if t.U16? then 2 else if t.U32? then 4 else 8
  }

  /** A number is its bytes in network order, as many as its type has; a bool is one byte, one or zero, and any byte but
      zero reads as true; a string is its length in two bytes, at most 65535, and its characters. */
  lemma LayoutOfScalar(v: Value, t: Schema)
    requires HasType(v, t) && (v.Number? || v.Flag? || v.Text?)
    ensures v.Number? ==> Marshal(v, t).Some? && |Marshal(v, t).value| == Width(t) && BigEndian(Marshal(v, t).value) == v.n
    ensures v.Flag? ==> Marshal(v, t) == Some([if v.b then 1 else 0])
    ensures v.Text? ==> (Marshal(v, t).Some? <==> |v.s| <= 65535)
    ensures v.Text? && |v.s| <= 65535 ==>
              var m := Marshal(v, t).value; |m| == 2 + |v.s| && BigEndian(m[..2]) == |v.s| && m[2..] == v.s
    ensures forall b: byte, rest: bytes :: Unmarshal(Bool, [b] + rest) == Some((Flag(b != 0), rest))
  {
    hide Encode16, Encode32, Encode64, BigEndian;
    match v {
      case Number(n) =>
        if t.U8? {
          assert BigEndian([n]) == n by { OneByte(n); }
        } else if t.U16? {
          Encode16IsBigEndian(n);
        } else if t.U32? {
          Encode32IsBigEndian(n);
        } else {
          Encode64IsBigEndian(n);
        }
      case Text(s) =>
        if |s| <= MAX_VARSTR {
          Encode16IsBigEndian(|s|);
          assert (Encode16(|s|) + s)[..2] == Encode16(|s|) && (Encode16(|s|) + s)[2..] == s;
        }
      case Flag(_) =>
    }
    forall b: byte, rest: bytes ensures Unmarshal(Bool, [b] + rest) == Some((Flag(b != 0), rest)) {
      assert ([b] + rest)[1..] == rest;
    }
  }

  lemma OneByte(n: byte)
    ensures BigEndian([n]) == n
  {
    assert [n][..0] == [];
  }

  /** A pair is its components, a container its size in four bytes and its items in order. */
  lemma LayoutOfCompound(v: Value, t: Schema)
    requires HasType(v, t) && (v.Two? || v.Many?) && Marshal(v, t).Some?
    ensures v.Two? ==> Marshal(v.fst, t.first).Some? && Marshal(v.snd, t.second).Some?
                       && Marshal(v, t).value == Marshal(v.fst, t.first).value + Marshal(v.snd, t.second).value
    ensures v.Many? ==> |Marshal(v, t).value| >= 4 && BigEndian(Marshal(v, t).value[..4]) == |v.items| % 0x1_0000_0000
    ensures v.Many? ==> ConcatOf(v.items, t.Item(), Marshal(v, t).value[4..])
  {
    hide Encode32, BigEndian, MarshalItems, ConcatOf;
    if v.Many? {
      ManyParts(v.items, t);
      var count := Truncate32(|v.items|);
      Encode32IsBigEndian(count);
      var m := MarshalItems(v.items, t.Item()).value;
      assert (Encode32(count) + m)[..4] == Encode32(count) && (Encode32(count) + m)[4..] == m;
      ItemsConcatenated(v.items, t.Item());
    }
  }

  /** The bytes are those of the items, one item after the other. */
  ghost predicate ConcatOf(items: seq<Value>, t: Schema, data: bytes)
    requires forall i :: 0 <= i < |items| ==> HasType(items[i], t)
  {
    if items == [] then data == []
    else
      && Marshal(items[0], t).Some?
      && Marshal(items[0], t).value <= data
      && ConcatOf(items[1..], t, data[|Marshal(items[0], t).value|..])
  }

  lemma {:induction false} ItemsConcatenated(items: seq<Value>, t: Schema)
    requires (forall i :: 0 <= i < |items| ==> HasType(items[i], t)) && MarshalItems(items, t).Some?
    ensures ConcatOf(items, t, MarshalItems(items, t).value)
  {
    hide Marshal, HasType;
    if items != [] {
      ItemsConcatenated(items[1..], t);
      var p, q := Marshal(items[0], t).value, MarshalItems(items[1..], t).value;
      assert (p + q)[|p|..] == q;
    }
  }
}

/** The white list of core/xnet/WhiteLst.cpp: single addresses, ranges, and prefixes (section 3.1 of RFC 4632).
    Addresses are kept in network order; on a little-endian machine ntohl and htonl are SwapLong. */
module WhiteLists {
  import opened Arithmetic
  import opened Bytes
  import opened Bits

  // INADDR_NONE, what inet_addr returns for a string that is no address
  const NO_ADDRESS: uint32 := 0xFFFF_FFFF

  predicate ValidAddr(ip: uint32) {
    ip != NO_ADDRESS
  }

  /** What one line of the list says, its addresses already read by inet_addr.  The suffix of a prefix is also read as
      an address, because the case for '/' falls through into the case for '-'. */
  datatype Line =
    | Single(ip: uint32)
    | Prefix(ip: uint32, len: int, suffix: uint32)
    | Span(ip: uint32, last: uint32)

  const GUARD := 0x1_0000  // 64 * 1024

  /** The addresses a range adds: all between its ends, if both are addresses and the range is not too large. */
  predicate InRange(h1: uint32, h2: uint32, x: uint32) {
    && ValidAddr(h1) && ValidAddr(h2)
    && Truncate32(SwapLong(h2) - SwapLong(h1)) <= GUARD
    && SwapLong(h1) <= SwapLong(x) <= SwapLong(h2)
  }

  /** The network mask of a prefix length, as the loop builds it: shift right, set the top bit. */
  function Mask(len: nat): uint32
    requires 1 <= len <= 32
  {
    if len == 1 then 0x8000_0000 else Or32(Mask(len - 1) / 2, 0x8000_0000)
  }

  /** The first address and the last one of a prefix line, in network order. */
  function Base(ip: uint32, len: nat): uint32
    requires 1 <= len <= 32
  {
    And32(ip, SwapLong(Mask(len)))
  }

  function Last(ip: uint32, len: nat): uint32
    requires 1 <= len <= 32
  {
    Or32(ip, Not32(SwapLong(Mask(len))))
  }

  /** What a line adds, range by range. */
  predicate Adds(line: Line, x: uint32) {
    match line
    case Single(ip) => ValidAddr(ip) && x == ip
    case Span(ip, last) => InRange(ip, last, x)
    case Prefix(ip, len, suffix) =>
      && ValidAddr(ip) && 1 <= len <= 32
      && (InRange(Base(ip, len), Last(ip, len), x) || InRange(ip, suffix, x))
  }

  class WhiteLst {
    var hosts: set<uint32>

    constructor ()
      ensures hosts == {}
    {
      hosts := {};
    }

    method Add(ip: uint32)
      modifies this
      ensures hosts == old(hosts) + if ValidAddr(ip) then {ip} else {}
    {
      if ValidAddr(ip) {
        hosts := hosts + {ip};
      }
    }

    /** The range loop counts in 32 bits; it ends, and never wraps, because the last address is not 255.255.255.255. */
    method AddRange(h1: uint32, h2: uint32)
      modifies this
      ensures forall x: uint32 :: x in hosts <==> x in old(hosts) || InRange(h1, h2, x)
    {
      hide SwapLong;
      if !ValidAddr(h1) || !ValidAddr(h2) {
        return;
      }
      var i1, i2 := SwapLong(h1), SwapLong(h2);
      if Truncate32(i2 - i1) > GUARD {
        return;
      }
      SwapLongTwice(h2);
      assert i2 != NO_ADDRESS by { NoAddressSwapped(); }
      var i: uint32 := i1;
      while i <= i2
        invariant i1 <= i && (i <= i2 + 1 || i == i1)
        invariant Inserted(old(hosts), i1, i, hosts)
        decreases i2 + 1 - i
      {
        InsertedNext(old(hosts), i1, i, hosts);
        hosts := hosts + {SwapLong(i)};
        i := i + 1;
      }
    }

    /** One line of the file.  The mask is built by a loop, applied in network order, and the case for '/' falls
        through into that for '-'. */
    method ParseAdd(line: Line)
      modifies this
      ensures forall x: uint32 :: x in hosts <==> x in old(hosts) || Adds(line, x)
    {
      hide SwapLong, And32, Or32, InRange, Mask;
      match line {
        case Single(ip) => Add(ip);
        case Span(ip, last) =>
          if ValidAddr(ip) {
            AddRange(ip, last);
          } else {
            NothingFromNowhere(ip, last);
          }
        case Prefix(ip, len, suffix) =>
          if !ValidAddr(ip) || len <= 0 || len > 32 {
            return;
          }
          var mask := BuildMask(len);
          mask := SwapLong(mask);
          AddRange(And32(ip, mask), Or32(ip, Not32(mask)));
          AddRange(ip, suffix);
      }
    }
  }

  lemma NoAddressSwapped()
    ensures SwapLong(NO_ADDRESS) == NO_ADDRESS
  {
  }

  lemma NothingFromNowhere(ip: uint32, last: uint32)
    requires !ValidAddr(ip)
    ensures forall x: uint32 :: !InRange(ip, last, x)
  {
  }

  method BuildMask(len: int) returns (mask: uint32)
    requires 1 <= len <= 32
    ensures mask == Mask(len)
  {
    hide Or32;
    mask := 0x8000_0000;
    var left := len - 1;
    while left > 0
      invariant 0 <= left < len && mask == Mask(len - left)
    {
      mask := Or32(mask / 2, 0x8000_0000);
      left := left - 1;
    }
  }

  ghost predicate Inserted(before: set<uint32>, i1: uint32, i: uint32, hosts: set<uint32>) {
    forall x: uint32 :: x in hosts <==> x in before || i1 <= SwapLong(x) < i
  }

  lemma InsertedNext(before: set<uint32>, i1: uint32, i: uint32, hosts: set<uint32>)
    requires Inserted(before, i1, i, hosts) && i1 <= i < NO_ADDRESS
    ensures Inserted(before, i1, i + 1, hosts + {SwapLong(i)})
  {
    hide SwapLong;
    SwapLongTwice(i);
    forall x: uint32 ensures x in hosts + {SwapLong(i)} <==> x in before || i1 <= SwapLong(x) < i + 1 {
      SwapLongTwice(x);
    }
  }

  // ---- what a single address and a range add ----

  /** Host-order numbers and network-order addresses correspond, and so do those that are no address. */
  lemma SwappedIsValidIff(h: uint32)
    ensures ValidAddr(SwapLong(h)) <==> h != 0xFFFF_FFFF
    ensures SwapLong(SwapLong(h)) == h
  {
    hide SwapLong;
    SwapLongTwice(h);
    NoAddressSwapped();
  }

  /** A range line adds exactly the addresses from the first to the last, ends included, if neither end is
      255.255.255.255 and they are at most 65536 apart; otherwise, and if they are the wrong way round, nothing. */
  lemma SpanIsRange(first: uint32, last: uint32, x: uint32)
    ensures Adds(Span(SwapLong(first), SwapLong(last)), x) <==>
            first != 0xFFFF_FFFF && last != 0xFFFF_FFFF && first <= SwapLong(x) <= last && last - first <= 65536
  {
    hide SwapLong;
    SwappedIsValidIff(first);
    SwappedIsValidIff(last);
  }

  /** A line with one address adds it, unless it is 255.255.255.255. */
  lemma SingleIsOne(only: uint32, x: uint32)
    ensures Adds(Single(SwapLong(only)), x) <==> only != 0xFFFF_FFFF && SwapLong(x) == only
  {
    hide SwapLong;
    SwappedIsValidIff(only);
    SwapLongTwice(x);
  }

  /** A prefix line without an address, or with a number of bits outside 1 to 32, adds nothing. */
  lemma InvalidPrefixAddsNothing(host: uint32, len: int, suffix: uint32, x: uint32)
    requires host == 0xFFFF_FFFF || len < 1 || 32 < len
    ensures !Adds(Prefix(SwapLong(host), len, suffix), x)
  {
    hide SwapLong;
    SwappedIsValidIff(host);
  }

  // ---- what a prefix line adds ----

  /** The loop's mask is 2^32 - 2^(32-len): len ones, then zeros. */
  lemma {:induction false} MaskValue(len: nat)
    requires 1 <= len <= 32
    ensures Mask(len) == Pow2(32) - Pow2(32 - len)
  {
    hide Or, Pow2;
    PowersOfInterest();
    if len > 1 {
      MaskValue(len - 1);
      DoublePow(1, 33 - len);
      DoublePow(1, 32);
      assert Mask(len - 1) / 2 == Pow2(31) - Pow2(32 - len);
      OrTop(Mask(len - 1) / 2, 31);
    }
  }

  /** Two addresses agree in their first len bits. */
  predicate SamePrefix(len: nat, x: uint32, y: uint32)
    requires 1 <= len <= 32
  {
    SwapLong(x) / Pow2(32 - len) == SwapLong(y) / Pow2(32 - len)
  }

  lemma MaskIsOnes(len: nat)
    requires 1 <= len <= 32
    ensures Mask(len) == Ones(32 - len, 32) && Not32(Mask(len)) == Ones(0, 32 - len)
  {
    hide Pow2, Mask;
    MaskValue(len);
    PowersOfInterest();
    PowOfNothing();
  }

  lemma BaseIsFirst(ip: uint32, len: nat)
    requires 1 <= len <= 32
    ensures SwapLong(Base(ip, len)) == SwapLong(ip) - Low(SwapLong(ip), 32 - len)
  {
    hide SwapLong, And, Mask, Pow2, Low, Ones;
    PowersOfInterest();
    MaskIsOnes(len);
    SwapLongTwice(Mask(len));
    SwapCommutes(ip, SwapLong(Mask(len)));
    AndMask(SwapLong(ip), 32 - len, 32);
  }

  lemma LastIsLast(ip: uint32, len: nat)
    requires 1 <= len <= 32
    ensures SwapLong(Last(ip, len)) == SwapLong(ip) - Low(SwapLong(ip), 32 - len) + Ones(0, 32 - len)
  {
    hide SwapLong, Or, Mask, Pow2, Low, Ones;
    PowersOfInterest();
    MaskIsOnes(len);
    var m := SwapLong(Mask(len));
    SwapLongTwice(Mask(len));
    SwapCommutes(m, m);
    SwapCommutes(ip, Not32(m));
    OrLow(SwapLong(ip), 32 - len, 32);
  }

  /** The ends of the block, in host order. */
  lemma BlockEnds(ip: uint32, len: nat)
    requires 1 <= len <= 32
    ensures var p, h := Pow2(32 - len), SwapLong(ip);
            && SwapLong(Base(ip, len)) == h - h % p
            && SwapLong(Last(ip, len)) == h - h % p + p - 1
  {
    hide SwapLong, Base, Last, Pow2;
    BaseIsFirst(ip, len);
    LastIsLast(ip, len);
    PowOfNothing();
  }

  /** Between the ends of the block lie exactly the addresses with the same prefix. */
  lemma BlockIsPrefix(h: nat, y: nat, p: nat)
    requires p > 0
    ensures h - h % p <= y <= h - h % p + p - 1 <==> y / p == h / p
  {
    var q := h / p;
    assert h - h % p == q * p;
    if q * p <= y <= q * p + p - 1 {
      DivisionIsUnique(y, p, q, y - q * p);
    }
    assert y == (y / p) * p + y % p;
  }

  lemma SixteenBits(len: nat)
    requires 1 <= len <= 32
    ensures Pow2(32 - len) - 1 <= GUARD <==> len >= 16
    ensures Pow2(32 - len) <= Pow2(31)
  {
    hide Pow2;
    PowersOfInterest();
    Pow2Grows(32 - len, 31);
    DoublePow(1, 17);
    if len >= 16 {
      Pow2Grows(32 - len, 16);
    } else {
      Pow2Grows(17, 32 - len);
    }
  }

  /** The first range of a prefix line is the block itself, provided it has at most 65536 addresses, that is at least
      16 prefix bits, and does not end at 255.255.255.255; otherwise it adds nothing. */
  lemma FirstRangeIsBlock(ip: uint32, len: nat, x: uint32)
    requires 1 <= len <= 32 && ValidAddr(ip)
    ensures InRange(Base(ip, len), Last(ip, len), x)
            <==> len >= 16 && Last(ip, len) != NO_ADDRESS && SamePrefix(len, x, ip)
  {
    hide SwapLong, Base, Last, Pow2;
    var p, h := Pow2(32 - len), SwapLong(ip);
    BlockEnds(ip, len);
    SixteenBits(len);
    BlockIsPrefix(h, SwapLong(x), p);
    NoAddressSwapped();
    SwapLongTwice(ip);
  }

  /** The second range runs from the address itself to its suffix read as an address: nothing, exactly when that is no
      address, is lower, or is more than 65536 away. */
  lemma SecondRangeIsEmptyIff(ip: uint32, suffix: uint32)
    requires ValidAddr(ip)
    ensures (forall x: uint32 :: !InRange(ip, suffix, x))
            <==> !ValidAddr(suffix) || SwapLong(suffix) < SwapLong(ip) || SwapLong(suffix) - SwapLong(ip) > GUARD
  {
    hide SwapLong;
    if ValidAddr(suffix) && SwapLong(ip) <= SwapLong(suffix) <= SwapLong(ip) + GUARD {
      assert InRange(ip, suffix, ip);
    }
  }

  /** What a prefix line stands for: the addresses that share its prefix. */
  predicate InBlock(ip: uint32, len: nat, x: uint32)
    requires 1 <= len <= 32
  {
    len >= 16 && Last(ip, len) != NO_ADDRESS && SamePrefix(len, x, ip)
  }

  lemma DivMonotone(a: nat, b: nat, d: nat)
    requires a <= b && d > 0
    ensures a / d <= b / d
  {
    if a / d > b / d {
      MulMonotone(b / d + 1, a / d, d);
    }
  }

  lemma BetweenSamePrefixes(ip: uint32, suffix: uint32, len: nat, x: uint32)
    requires 1 <= len <= 32 && SamePrefix(len, suffix, ip) && SwapLong(ip) <= SwapLong(x) <= SwapLong(suffix)
    ensures SamePrefix(len, x, ip)
  {
    hide SwapLong, Pow2;
    DivMonotone(SwapLong(ip), SwapLong(x), Pow2(32 - len));
    DivMonotone(SwapLong(x), SwapLong(suffix), Pow2(32 - len));
  }

  /** A prefix line of 16 to 32 bits, written with a plain number, whose block does not end at 255.255.255.255 adds its
      block and nothing else exactly when the address is above the number of bits or that number, as an address, lies in
      the block itself.  Every address above 0.0.0.32 qualifies. */
  lemma PrefixLineIsExactIff(ip: uint32, len: nat, suffix: uint32)
    requires 16 <= len <= 32 && ValidAddr(ip) && SwapLong(suffix) == len && Last(ip, len) != NO_ADDRESS
    ensures (forall x: uint32 :: Adds(Prefix(ip, len, suffix), x) <==> InBlock(ip, len, x))
            <==> SwapLong(ip) > len || SamePrefix(len, suffix, ip)
  {
    hide SwapLong, SamePrefix, Base, Last;
    SuffixIsValid(suffix, len);
    forall x: uint32 ensures Adds(Prefix(ip, len, suffix), x) <==> InBlock(ip, len, x) || InRange(ip, suffix, x) {
      FirstRangeIsBlock(ip, len, x);
    }
    if SwapLong(ip) > len {
      SecondRangeIsEmptyIff(ip, suffix);
    } else if SamePrefix(len, suffix, ip) {
      forall x: uint32 | InRange(ip, suffix, x) ensures InBlock(ip, len, x) {
        BetweenSamePrefixes(ip, suffix, len, x);
      }
    } else {
      assert InRange(ip, suffix, suffix) && !InBlock(ip, len, suffix);
    }
  }

  lemma SuffixIsValid(suffix: uint32, len: nat)
    requires SwapLong(suffix) == len <= 32
    ensures ValidAddr(suffix)
  {
  }

  /** With fewer than 16 bits, or a block that ends at 255.255.255.255, the block itself is not added.  The line adds what
      the fall-through adds, and that is nothing exactly when the address is above the number of bits. */
  lemma OtherBlocksAreNotAdded(ip: uint32, len: nat, suffix: uint32)
    requires 1 <= len <= 32 && ValidAddr(ip) && SwapLong(suffix) == len
    requires len < 16 || Last(ip, len) == NO_ADDRESS
    ensures forall x: uint32 :: Adds(Prefix(ip, len, suffix), x) <==> SwapLong(ip) <= SwapLong(x) <= len
    ensures (forall x: uint32 :: !Adds(Prefix(ip, len, suffix), x)) <==> SwapLong(ip) > len
  {
    hide SwapLong, SamePrefix, Base, Last;
    SuffixIsValid(suffix, len);
    forall x: uint32 ensures Adds(Prefix(ip, len, suffix), x) <==> InRange(ip, suffix, x) {
      FirstRangeIsBlock(ip, len, x);
    }
    SecondRangeIsEmptyIff(ip, suffix);
    forall x: uint32 ensures InRange(ip, suffix, x) <==> SwapLong(ip) <= SwapLong(x) <= len {
      BelowBits(ip, suffix, len, x);
    }
  }

  lemma BelowBits(ip: uint32, suffix: uint32, len: nat, x: uint32)
    requires len <= 32 && ValidAddr(ip) && ValidAddr(suffix) && SwapLong(suffix) == len
    ensures InRange(ip, suffix, x) <==> SwapLong(ip) <= SwapLong(x) <= len
  {
    hide SwapLong;
  }

  lemma BlockOfOne(h: uint32, x: uint32)
    requires h != NO_ADDRESS
    ensures InBlock(SwapLong(h), 32, x) <==> SwapLong(x) == h
  {
    hide SwapLong, Last, Base;
    SwappedIsValidIff(h);
    BlockEnds(SwapLong(h), 32);
    PowOfNothing();
    NoAddressSwapped();
  }

  /** A line that fails: 0.0.0.5/32 adds every address from 0.0.0.5 to 0.0.0.32, where its block is the first of them. */
  lemma LowAddressAddsMore(x: uint32)
    ensures var ip, suffix := SwapLong(5), SwapLong(32);
            && (Adds(Prefix(ip, 32, suffix), x) <==> 5 <= SwapLong(x) <= 32)
            && (InBlock(ip, 32, x) <==> SwapLong(x) == 5)
  {
    hide SwapLong, Base, Last, SamePrefix;
    var ip, suffix := SwapLong(5), SwapLong(32);
    SwappedIsValidIff(5);
    SwappedIsValidIff(32);
    BlockOfOne(5, x);
    FirstRangeIsBlock(ip, 32, x);
  }
}

/** The shifts, ors and masks of the source, operator by operator, come to the products, sums, quotients and remainders
    that the other modules calculate with. */
module Shifts {
  import opened Arithmetic
  import opened Bits
  import opened Bytes
  import opened Frames
  import opened Registry

  lemma {:induction false} OrCommutes(a: nat, b: nat, n: nat)
    ensures Or(a, b, n) == Or(b, a, n)
  {
    if n > 0 {
      OrCommutes(a / 2, b / 2, n - 1);
    }
  }

  lemma {:induction false} AndNothing(a: nat, n: nat)
    ensures And(a, 0, n) == 0
  {
    if n > 0 {
      AndNothing(a / 2, n - 1);
    }
  }

  lemma PowIsPositive(k: nat)
    ensures 0 < Pow2(k)
  {
  }

  /** Oring numbers that share no bits adds them. */
  lemma OrDisjoint(hi: nat, lo: nat, k: nat, n: nat)
    requires k <= n && lo < Pow2(k) && hi < Pow2(n - k)
    ensures Or(hi * Pow2(k), lo, n) == hi * Pow2(k) + lo
  {
    hide Or, Pow2;
    PowIsPositive(k);
    assert Join(hi, 0, k) == hi * Pow2(k) && Join(0, lo, k) == lo;
    OrJoined(hi, 0, 0, lo, k, n);
    OrNothing(hi, n - k);
    OrCommutes(0, lo, k);
    OrNothing(lo, k);
  }

  /** Anding with the mask of the k lowest bits is the remainder. */
  lemma AndLow(x: nat, k: nat, n: nat)
    requires k <= n
    ensures And(x, Pow2(k) - 1, n) == x % Pow2(k)
  {
    hide And, Pow2;
    PowIsPositive(k);
    var p := Pow2(k);
    assert Join(x / p, x % p, k) == x && Join(0, p - 1, k) == p - 1;
    AndJoined(x / p, x % p, 0, p - 1, k, n);
    AndNothing(x / p, n - k);
    AndOnes(x % p, k);
    assert Join(0, x % p, k) == x % p;
  }

  /** Shifting left in n bits, one bit at a time; the bit that leaves the word is lost. */
  function Shl(x: nat, k: nat, n: nat): nat
    decreases k
  {
    if k == 0 then x else Shl(2 * x % Pow2(n), k - 1, n)
  }

  /** Shifting right, one bit at a time. */
  function Shr(x: nat, k: nat): nat
    decreases k
  {
    if k == 0 then x else Shr(x / 2, k - 1)
  }

  lemma ModTimes(a: nat, b: nat, p: nat)
    requires p > 0
    ensures (a % p) * b % p == a * b % p
  {
    var q, r := a / p, a % p;
    var q2, r2 := (r * b) / p, (r * b) % p;
    assert a * b == (q * p + r) * b == (q * b) * p + r * b == (q * b + q2) * p + r2;
    DivisionIsUnique(a * b, p, q * b + q2, r2);
  }

  lemma HalfDivided(x: nat, p: nat)
    requires p > 0
    ensures x / (2 * p) == (x / 2) / p
  {
    var q, r := (x / 2) / p, (x / 2) % p;
    assert x == q * (2 * p) + (2 * r + x % 2);
    DivisionIsUnique(x, 2 * p, q, 2 * r + x % 2);
  }

  lemma ProductOfDouble(x: nat, k: nat)
    requires k > 0
    ensures x * Pow2(k) == 2 * x * Pow2(k - 1)
  {
    hide Pow2;
    DoublePow(x, k);
    assert 2 * x * Pow2(k - 1) == 2 * (x * Pow2(k - 1));
  }

  /** The product, cut to n bits. */
  function Scaled(x: nat, k: nat, n: nat): nat {
    x * Pow2(k) % Pow2(n)
  }

  lemma ScaledByDoubling(x: nat, k: nat, n: nat)
    requires k > 0
    ensures Scaled(x, k, n) == Scaled(2 * x % Pow2(n), k - 1, n)
  {
    hide Pow2;
    PowIsPositive(n);
    ModTimes(2 * x, Pow2(k - 1), Pow2(n));
    ProductOfDouble(x, k);
  }

  lemma ScaledByNothing(x: nat, n: nat)
    requires x < Pow2(n)
    ensures Scaled(x, 0, n) == x
  {
    hide Pow2;
    PowOfNothing();
    PowIsPositive(n);
    DivisionIsUnique(x, Pow2(n), 0, x);
  }

  lemma {:induction false} ShlIsProduct(x: nat, k: nat, n: nat)
    requires x < Pow2(n)
    ensures Shl(x, k, n) == Scaled(x, k, n)
    decreases k
  {
    hide Pow2, Scaled;
    PowIsPositive(n);
    if k > 0 {
      assert 2 * x % Pow2(n) < Pow2(n);
      ShlIsProduct(2 * x % Pow2(n), k - 1, n);
      ScaledByDoubling(x, k, n);
    } else {
      ScaledByNothing(x, n);
    }
  }

  lemma {:induction false} ShrIsQuotient(x: nat, k: nat)
    ensures Shr(x, k) == x / Pow2(k)
    decreases k
  {
    if k > 0 {
      hide Pow2;
      PowIsPositive(k - 1);
      ShrIsQuotient(x / 2, k - 1);
      DoublePow(1, k);
      HalfDivided(x, Pow2(k - 1));
    }
  }

  /** XHTONS: both shifts are made on an int, the result is cut to 16 bits. */
  lemma SwapShortIsShiftOr(i: uint16)
    ensures SwapShort(i) == Or(Shl(i, 8, 32), Shr(i, 8), 32) % 0x1_0000
  {
    hide Or, Pow2, Shl, Shr;
    PowersOfInterest();
    ShlIsProduct(i, 8, 32);
    ShrIsQuotient(i, 8);
    OrDisjoint(i, i / 0x100, 8, 32);
  }

  /** XHTONL over XHTONS; the argument of the first is cut to 16 bits. */
  lemma SwapLongIsShiftOr(i: uint32)
    ensures Shr(i, 16) < 0x1_0000
    ensures SwapLong(i) == Or(Shl(SwapShort(i % 0x1_0000), 16, 32), SwapShort(Shr(i, 16)), 32)
  {
    hide Or, Pow2, SwapShort, Shl, Shr;
    PowersOfInterest();
    ShrIsQuotient(i, 16);
    ShlIsProduct(SwapShort(i % 0x1_0000), 16, 32);
    OrDisjoint(SwapShort(i % 0x1_0000), SwapShort(i / 0x1_0000), 16, 32);
  }

  lemma Pow64()
    ensures Pow2(64) == 0x1_0000_0000_0000_0000
  {
    hide Pow2;
    PowersOfInterest();
    PowAdds(32, 32);
  }

  lemma {:induction false} PowAdds(j: nat, k: nat)
    ensures Pow2(j + k) == Pow2(j) * Pow2(k)
  {
    if k > 0 {
      PowAdds(j, k - 1);
    }
  }

  lemma SwapLongLongIsShiftOr(i: uint64)
    ensures Shr(i, 32) < 0x1_0000_0000
    ensures SwapLongLong(i) == Or(Shl(SwapLong(i % 0x1_0000_0000), 32, 64), SwapLong(Shr(i, 32)), 64)
  {
    hide Or, Pow2, SwapLong, Shl, Shr;
    PowersOfInterest();
    Pow64();
    ShrIsQuotient(i, 32);
    ShlIsProduct(SwapLong(i % 0x1_0000_0000), 32, 64);
    OrDisjoint(SwapLong(i % 0x1_0000_0000), SwapLong(i / 0x1_0000_0000), 32, 64);
  }

  /** The tag is the field shifted right by 29.  The mask is the complement of 111, in decimal, shifted left by 29; its low
      three bits are all ones, so in 32 bits it clears exactly the tag. */
  lemma LengthIsMasked(length: uint32)
    ensures Shl(111, 29, 32) < 0x1_0000_0000
    ensures GetProtoType(length).1 == And32(length, Not32(Shl(111, 29, 32)))
    ensures GetProtoType(length).0 ==
            match Shr(length, 29) case 0 => Json case 1 => Bin case 2 => Http case _ => NoProto
  {
    hide And, Pow2, Shl, Shr;
    assert Pow2(29) == PROTO_MAGIC_SHIFT by { DoublePow(1, 31); DoublePow(1, 30); PowersOfInterest(); }
    PowersOfInterest();
    ShlIsProduct(111, 29, 32);
    ShrIsQuotient(length, 29);
    AndLow(length, 29, 32);
  }

  /** Packing shifts and ors, unpacking shifts back and truncates. */
  lemma ServerIdIsShiftOr(ip: uint32, port: uint16, sid: ServerId)
    ensures GenSId(ip, port) == Or(Shl(ip, 32, 64), port, 64)
    ensures AddressOf(sid) == (Shr(sid, 32), sid % 0x1_0000)
  {
    hide Or, Pow2, Shl, Shr;
    PowersOfInterest();
    Pow64();
    ShlIsProduct(ip, 32, 64);
    ShrIsQuotient(sid, 32);
    OrDisjoint(ip, port, 32, 64);
  }
}

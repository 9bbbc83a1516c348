/** Bitwise operators on unsigned integers of n bits, bit by bit, and what they come to for masks. */
module Bits {
  import opened Arithmetic
  import opened Bytes

  function Pow2(n: nat): (p: nat)
    ensures p > 0
  {
    if n == 0 then 1 else 2 * Pow2(n - 1)
  }

  function And(a: nat, b: nat, n: nat): nat {
    if n == 0 then 0 else 2 * And(a / 2, b / 2, n - 1) + if a % 2 == 1 && b % 2 == 1 then 1 else 0
  }

  function Or(a: nat, b: nat, n: nat): nat {
    if n == 0 then 0 else 2 * Or(a / 2, b / 2, n - 1) + if a % 2 == 1 || b % 2 == 1 then 1 else 0
  }

  lemma {:induction false} Pow2Grows(k: nat, n: nat)
    requires k <= n
    ensures Pow2(k) <= Pow2(n)
  {
    if k < n {
      Pow2Grows(k, n - 1);
    }
  }

  /** The k lowest bits. */
  function Low(x: nat, k: nat): nat {
    x % Pow2(k)
  }

  lemma LowBit(x: nat, k: nat)
    requires k > 0
    ensures Low(x, k) == 2 * Low(x / 2, k - 1) + x % 2
  {
    hide Pow2;
    DoublePow(1, k);
    var p := Pow2(k - 1);
    var q, r := (x / 2) / p, (x / 2) % p;
    assert x / 2 == q * p + r;
    assert x == q * (2 * p) + (2 * r + x % 2);
    DivisionIsUnique(x, 2 * p, q, 2 * r + x % 2);
  }

  lemma LowNothing(x: nat)
    ensures Low(x, 0) == 0
  {
  }

  lemma {:induction false} AndOnes(x: nat, n: nat)
    requires x < Pow2(n)
    ensures And(x, Pow2(n) - 1, n) == x
  {
    if n > 0 {
      DoublePow(1, n);
      Halves(x, n);
      hide And, Pow2;
      AndOnes(x / 2, n - 1);
      AndBit(x, Pow2(n) - 1, n);
    }
  }

  /** Ones from bit n - 1 down to bit k, zeros below. */
  function Ones(k: nat, n: nat): nat
    requires k <= n
  {
    Pow2Grows(k, n);
    Pow2(n) - Pow2(k)
  }

  lemma OnesHalf(k: nat, n: nat)
    requires 0 < k <= n
    ensures Ones(k, n) / 2 == Ones(k - 1, n - 1) && Ones(k, n) % 2 == 0
  {
  }

  lemma OnesAll(n: nat)
    ensures Ones(0, n) == Pow2(n) - 1
  {
  }

  /** Anding with a mask that is ones down to bit k and zeros below clears the bits below k. */
  lemma {:induction false} AndMask(x: nat, k: nat, n: nat)
    requires k <= n && x < Pow2(n)
    ensures And(x, Ones(k, n), n) == x - Low(x, k)
  {
    hide And, Pow2, Low, Ones;
    if k == 0 {
      OnesAll(n);
      AndOnes(x, n);
      LowNothing(x);
    } else {
      OnesHalf(k, n);
      Halves(x, n);
      AndMask(x / 2, k - 1, n - 1);
      AndBit(x, Ones(k, n), n);
      LowBit(x, k);
    }
  }

  lemma {:induction false} OrNothing(x: nat, n: nat)
    requires x < Pow2(n)
    ensures Or(x, 0, n) == x
  {
    if n > 0 {
      Halves(x, n);
      hide Or, Pow2;
      OrNothing(x / 2, n - 1);
      OrBit(x, 0, n);
    }
  }

  lemma OnesBelowHalf(k: nat)
    requires k > 0
    ensures Ones(0, k) / 2 == Ones(0, k - 1) && Ones(0, k) % 2 == 1
  {
  }

  /** Oring with the k lowest bits sets them. */
  lemma {:induction false} OrLow(x: nat, k: nat, n: nat)
    requires k <= n && x < Pow2(n)
    ensures Or(x, Ones(0, k), n) == x - Low(x, k) + Ones(0, k)
  {
    hide Or, Pow2, Low, Ones;
    if k == 0 {
      assert Ones(0, 0) == 0 by { OnesAll(0); PowOfNothing(); }
      OrNothing(x, n);
      LowNothing(x);
    } else {
      OnesBelowHalf(k);
      Halves(x, n);
      OrLow(x / 2, k - 1, n - 1);
      OrBit(x, Ones(0, k), n);
      LowBit(x, k);
    }
  }

  lemma PowOfNothing()
    ensures Pow2(0) == 1
  {
  }

  /** Oring in a bit above all others adds it. */
  lemma {:induction false} OrTop(x: nat, n: nat)
    requires x < Pow2(n)
    ensures Or(x, Pow2(n), n + 1) == x + Pow2(n)
  {
    if n == 0 {
      assert Or(x / 2, Pow2(0) / 2, 0) == 0;
    } else {
      OrTop(x / 2, n - 1);
      assert Pow2(n) / 2 == Pow2(n - 1) && Pow2(n) % 2 == 0;
    }
  }

  // ---- both operators work byte by byte ----

  lemma {:induction false} AndIsBounded(a: nat, b: nat, n: nat)
    ensures And(a, b, n) < Pow2(n)
  {
    if n > 0 {
      AndIsBounded(a / 2, b / 2, n - 1);
    }
  }

  lemma {:induction false} OrIsBounded(a: nat, b: nat, n: nat)
    ensures Or(a, b, n) < Pow2(n)
  {
    if n > 0 {
      OrIsBounded(a / 2, b / 2, n - 1);
    }
  }

  lemma DoublePow(h: nat, k: nat)
    requires k > 0
    ensures h * Pow2(k) == 2 * (h * Pow2(k - 1)) && Pow2(k) == 2 * Pow2(k - 1)
  {
  }

  /** lo in the k lowest bits, hi above them. */
  function Join(hi: nat, lo: nat, k: nat): nat {
    hi * Pow2(k) + lo
  }

  lemma JoinHalf(hi: nat, lo: nat, k: nat)
    requires k > 0
    ensures Join(hi, lo, k) / 2 == Join(hi, lo / 2, k - 1) && Join(hi, lo, k) % 2 == lo % 2
  {
  }

  lemma JoinDouble(hi: nat, lo: nat, k: nat, bit: nat)
    requires k > 0
    ensures 2 * Join(hi, lo, k - 1) + bit == Join(hi, 2 * lo + bit, k)
  {
  }

  lemma JoinNothing(hi: nat, lo: nat)
    requires lo < Pow2(0)
    ensures Join(hi, lo, 0) == hi && lo == 0
  {
  }

  lemma Halves(lo: nat, k: nat)
    requires k > 0 && lo < Pow2(k)
    ensures lo / 2 < Pow2(k - 1)
  {
  }

  lemma AndBit(a: nat, b: nat, n: nat)
    requires n > 0
    ensures And(a, b, n) == 2 * And(a / 2, b / 2, n - 1) + if a % 2 == 1 && b % 2 == 1 then 1 else 0
  {
  }

  lemma {:induction false} AndJoined(ah: nat, al: nat, bh: nat, bl: nat, k: nat, n: nat)
    requires al < Pow2(k) && bl < Pow2(k) && k <= n
    ensures And(Join(ah, al, k), Join(bh, bl, k), n) == Join(And(ah, bh, n - k), And(al, bl, k), k)
  {
    if k == 0 {
      JoinNothing(ah, al);
      JoinNothing(bh, bl);
      assert And(al, bl, 0) == 0;
      JoinNothing(And(ah, bh, n), 0);
    } else {
      hide And, Join, Pow2;
      JoinHalf(ah, al, k);
      JoinHalf(bh, bl, k);
      Halves(al, k);
      Halves(bl, k);
      AndJoined(ah, al / 2, bh, bl / 2, k - 1, n - 1);
      AndBit(Join(ah, al, k), Join(bh, bl, k), n);
      AndBit(al, bl, k);
      JoinDouble(And(ah, bh, n - k), And(al / 2, bl / 2, k - 1), k, if al % 2 == 1 && bl % 2 == 1 then 1 else 0);
    }
  }

  lemma OrBit(a: nat, b: nat, n: nat)
    requires n > 0
    ensures Or(a, b, n) == 2 * Or(a / 2, b / 2, n - 1) + if a % 2 == 1 || b % 2 == 1 then 1 else 0
  {
  }

  lemma {:induction false} OrJoined(ah: nat, al: nat, bh: nat, bl: nat, k: nat, n: nat)
    requires al < Pow2(k) && bl < Pow2(k) && k <= n
    ensures Or(Join(ah, al, k), Join(bh, bl, k), n) == Join(Or(ah, bh, n - k), Or(al, bl, k), k)
  {
    if k == 0 {
      JoinNothing(ah, al);
      JoinNothing(bh, bl);
      assert Or(al, bl, 0) == 0;
      JoinNothing(Or(ah, bh, n), 0);
    } else {
      hide Or, Join, Pow2;
      JoinHalf(ah, al, k);
      JoinHalf(bh, bl, k);
      Halves(al, k);
      Halves(bl, k);
      OrJoined(ah, al / 2, bh, bl / 2, k - 1, n - 1);
      OrBit(Join(ah, al, k), Join(bh, bl, k), n);
      OrBit(al, bl, k);
      JoinDouble(Or(ah, bh, n - k), Or(al / 2, bl / 2, k - 1), k, if al % 2 == 1 || bl % 2 == 1 then 1 else 0);
    }
  }

  // ---- 32-bit words ----

  lemma PowersOfInterest()
    ensures Pow2(8) == 0x100 && Pow2(16) == 0x1_0000 && Pow2(24) == 0x100_0000
    ensures Pow2(31) == 0x8000_0000 && Pow2(32) == 0x1_0000_0000
  {
    assert Pow2(4) == 16;
    assert Pow2(8) == 256;
    assert Pow2(12) == 0x1000;
    assert Pow2(16) == 0x1_0000;
    assert Pow2(20) == 0x10_0000;
    assert Pow2(24) == 0x100_0000;
    assert Pow2(28) == 0x1000_0000;
    assert Pow2(31) == 0x8000_0000;
  }

  function And32(a: uint32, b: uint32): uint32 {
    AndIsBounded(a, b, 32);
    PowersOfInterest();
    And(a, b, 32)
  }

  function Or32(a: uint32, b: uint32): uint32 {
    OrIsBounded(a, b, 32);
    PowersOfInterest();
    Or(a, b, 32)
  }

  function Not32(a: uint32): uint32 {
    0xFFFF_FFFF - a
  }

  /** A word from its four bytes. */
  function Word(b3: byte, b2: byte, b1: byte, b0: byte): uint32 {
    (b3 as int * 0x100 + b2) * 0x1_0000 + (b1 as int * 0x100 + b0)
  }

  lemma SwapWord(b3: byte, b2: byte, b1: byte, b0: byte)
    ensures SwapLong(Word(b3, b2, b1, b0)) == Word(b0, b1, b2, b3)
  {
    hide SwapLong, SwapShort;
    var hi, lo := b3 as int * 0x100 + b2, b1 as int * 0x100 + b0;
    SwapHalves(hi, lo);
    SwapPair(b3, b2);
    SwapPair(b1, b0);
  }

  lemma SwapPair(b1: byte, b0: byte)
    ensures SwapShort(b1 as int * 0x100 + b0) == b0 as int * 0x100 + b1
  {
  }

  lemma SwapHalves(hi: uint16, lo: uint16)
    ensures SwapLong(hi * 0x1_0000 + lo) == SwapShort(lo) * 0x1_0000 + SwapShort(hi)
  {
    hide SwapShort;
    Join16(hi, lo);
  }

  lemma Split(a: uint32) returns (b3: byte, b2: byte, b1: byte, b0: byte)
    ensures a == Word(b3, b2, b1, b0)
  {
    var hi, lo := a / 0x1_0000, a % 0x1_0000;
    b3, b2, b1, b0 := hi / 0x100, hi % 0x100, lo / 0x100, lo % 0x100;
  }

  lemma AndWords(a3: byte, a2: byte, a1: byte, a0: byte, b3: byte, b2: byte, b1: byte, b0: byte)
    returns (c3: byte, c2: byte, c1: byte, c0: byte)
    ensures c3 == And(a3, b3, 8) && c2 == And(a2, b2, 8) && c1 == And(a1, b1, 8) && c0 == And(a0, b0, 8)
    ensures And32(Word(a3, a2, a1, a0), Word(b3, b2, b1, b0)) == Word(c3, c2, c1, c0)
  {
    hide And, Pow2;
    PowersOfInterest();
    AndIsBounded(a3, b3, 8);
    AndIsBounded(a2, b2, 8);
    AndIsBounded(a1, b1, 8);
    AndIsBounded(a0, b0, 8);
    c3, c2, c1, c0 := And(a3, b3, 8), And(a2, b2, 8), And(a1, b1, 8), And(a0, b0, 8);
    AndJoined(a3 as int * 0x100 + a2, a1 as int * 0x100 + a0, b3 as int * 0x100 + b2, b1 as int * 0x100 + b0, 16, 32);
    AndJoined(a3, a2, b3, b2, 8, 16);
    AndJoined(a1, a0, b1, b0, 8, 16);
  }

  lemma OrWords(a3: byte, a2: byte, a1: byte, a0: byte, b3: byte, b2: byte, b1: byte, b0: byte)
    returns (c3: byte, c2: byte, c1: byte, c0: byte)
    ensures c3 == Or(a3, b3, 8) && c2 == Or(a2, b2, 8) && c1 == Or(a1, b1, 8) && c0 == Or(a0, b0, 8)
    ensures Or32(Word(a3, a2, a1, a0), Word(b3, b2, b1, b0)) == Word(c3, c2, c1, c0)
  {
    hide Or, Pow2;
    PowersOfInterest();
    OrIsBounded(a3, b3, 8);
    OrIsBounded(a2, b2, 8);
    OrIsBounded(a1, b1, 8);
    OrIsBounded(a0, b0, 8);
    c3, c2, c1, c0 := Or(a3, b3, 8), Or(a2, b2, 8), Or(a1, b1, 8), Or(a0, b0, 8);
    OrJoined(a3 as int * 0x100 + a2, a1 as int * 0x100 + a0, b3 as int * 0x100 + b2, b1 as int * 0x100 + b0, 16, 32);
    OrJoined(a3, a2, b3, b2, 8, 16);
    OrJoined(a1, a0, b1, b0, 8, 16);
  }

  /** The bitwise operators commute with swapping the bytes, so it does not matter in which byte order a mask is applied. */
  lemma SwapCommutes(a: uint32, b: uint32)
    ensures SwapLong(And32(a, b)) == And32(SwapLong(a), SwapLong(b))
    ensures SwapLong(Or32(a, b)) == Or32(SwapLong(a), SwapLong(b))
    ensures SwapLong(Not32(a)) == Not32(SwapLong(a))
  {
    hide SwapLong, And32, Or32, Word;
    var a3, a2, a1, a0 := Split(a);
    var b3, b2, b1, b0 := Split(b);
    SwapWord(a3, a2, a1, a0);
    SwapWord(b3, b2, b1, b0);
    var c3, c2, c1, c0 := AndWords(a3, a2, a1, a0, b3, b2, b1, b0);
    var d3, d2, d1, d0 := AndWords(a0, a1, a2, a3, b0, b1, b2, b3);
    SwapWord(c3, c2, c1, c0);
    var e3, e2, e1, e0 := OrWords(a3, a2, a1, a0, b3, b2, b1, b0);
    var f3, f2, f1, f0 := OrWords(a0, a1, a2, a3, b0, b1, b2, b3);
    SwapWord(e3, e2, e1, e0);
    NotWord(a3, a2, a1, a0);
    NotWord(a0, a1, a2, a3);
    SwapWord(0xFF - a3, 0xFF - a2, 0xFF - a1, 0xFF - a0);
  }

  lemma NotWord(a3: byte, a2: byte, a1: byte, a0: byte)
    ensures Not32(Word(a3, a2, a1, a0)) == Word(0xFF - a3, 0xFF - a2, 0xFF - a1, 0xFF - a0)
  {
  }
}

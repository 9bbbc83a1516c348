/** Bytes, fixed-width unsigned integers and the byte order of the wire.

    The repository swaps every integer with shifts, truncations and ors before it is copied to or from memory
    by a little-endian machine.  Shifts by whole bytes, truncations and ors of disjoint bytes are written here as
    multiplications, divisions, remainders and sums; module Shifts shows that this is what they come to.  The lemmas here
    state what the combination means: network byte order (Appendix B of RFC 791), most significant byte first. */
module Bytes {
  type byte = x: int | 0 <= x < 0x100
  type uint16 = x: int | 0 <= x < 0x1_0000
  type uint32 = x: int | 0 <= x < 0x1_0000_0000
  type uint64 = x: int | 0 <= x < 0x1_0000_0000_0000_0000

  type bytes = seq<byte>

  function Truncate32(n: int): uint32 {
    n % 0x1_0000_0000
  }

  // ---- byte swaps ----

  /** Shifting left by eight and truncating to 16 bits keeps the low byte and puts it on top. */
  function SwapShort(i: uint16): uint16 {
    (i % 0x100) * 0x100 + i / 0x100
  }

  function SwapLong(i: uint32): uint32 {
    SwapShort(i % 0x1_0000) * 0x1_0000 + SwapShort(i / 0x1_0000)
  }

  function SwapLongLong(i: uint64): uint64 {
    SwapLong(i % 0x1_0000_0000) * 0x1_0000_0000 + SwapLong(i / 0x1_0000_0000)
  }

  // ---- little-endian memory ----

  function Store16(i: uint16): (b: bytes)
    ensures |b| == 2
  {
    [i % 0x100, i / 0x100]
  }

  function Store32(i: uint32): (b: bytes)
    ensures |b| == 4
  {
    Store16(i % 0x1_0000) + Store16(i / 0x1_0000)
  }

  function Store64(i: uint64): (b: bytes)
    ensures |b| == 8
  {
    Store32(i % 0x1_0000_0000) + Store32(i / 0x1_0000_0000)
  }

  function Load16(b: bytes): uint16
    requires |b| == 2
  {
    b[0] as int + b[1] as int * 0x100
  }

  function Load32(b: bytes): uint32
    requires |b| == 4
  {
    Load16(b[..2]) + Load16(b[2..]) * 0x1_0000
  }

  function Load64(b: bytes): uint64
    requires |b| == 8
  {
    Load32(b[..4]) + Load32(b[4..]) * 0x1_0000_0000
  }

  // ---- what the streams put on and take off the wire ----

  function Encode16(i: uint16): (b: bytes)
    ensures |b| == 2
  {
    Store16(SwapShort(i))
  }

  function Encode32(i: uint32): (b: bytes)
    ensures |b| == 4
  {
    Store32(SwapLong(i))
  }

  function Encode64(i: uint64): (b: bytes)
    ensures |b| == 8
  {
    Store64(SwapLongLong(i))
  }

  function Decode16(b: bytes): uint16
    requires |b| == 2
  {
    SwapShort(Load16(b))
  }

  function Decode32(b: bytes): uint32
    requires |b| == 4
  {
    SwapLong(Load32(b))
  }

  function Decode64(b: bytes): uint64
    requires |b| == 8
  {
    SwapLongLong(Load64(b))
  }

  /** The number a byte string denotes when its first byte is the most significant one. */
  function BigEndian(b: bytes): nat {
    if b == [] then 0 else BigEndian(b[..|b| - 1]) * 0x100 + b[|b| - 1]
  }

  lemma BigEndian2(b: bytes)
    requires |b| == 2
    ensures BigEndian(b) == b[0] as int * 0x100 + b[1]
  {
    assert b[..1][..0] == [] && BigEndian(b[..1]) == b[0];
  }

  lemma BigEndian4(b: bytes)
    requires |b| == 4
    ensures BigEndian(b) == ((b[0] as int * 0x100 + b[1]) * 0x100 + b[2]) * 0x100 + b[3]
  {
    assert b[..3][..2] == b[..2] && b[..2][..1] == b[..1] && b[..1][..0] == [];
    assert BigEndian(b[..1]) == b[0];
    assert BigEndian(b[..2]) == b[0] as int * 0x100 + b[1];
    assert BigEndian(b[..3]) == (b[0] as int * 0x100 + b[1]) * 0x100 + b[2];
  }

  // ---- quotient and remainder of a joined pair ----

  lemma Join8(hi: int, lo: byte)
    ensures (hi * 0x100 + lo) / 0x100 == hi && (hi * 0x100 + lo) % 0x100 == lo
  {
  }

  lemma Join16(hi: int, lo: uint16)
    ensures (hi * 0x1_0000 + lo) / 0x1_0000 == hi && (hi * 0x1_0000 + lo) % 0x1_0000 == lo
  {
  }

  lemma Join32(hi: int, lo: uint32)
    ensures (hi * 0x1_0000_0000 + lo) / 0x1_0000_0000 == hi && (hi * 0x1_0000_0000 + lo) % 0x1_0000_0000 == lo
  {
  }

  // ---- 16 bits ----

  lemma SwapShortTwice(i: uint16)
    ensures SwapShort(SwapShort(i)) == i
  {
    Join8(i % 0x100, i / 0x100);
  }

  lemma StoreLoad16(i: uint16, b: bytes)
    requires |b| == 2
    ensures Load16(Store16(i)) == i
    ensures Store16(Load16(b)) == b
  {
  }

  lemma SwapShortLoad(b: bytes)
    requires |b| == 2
    ensures SwapShort(Load16(b)) == b[0] as int * 0x100 + b[1]
  {
  }

  /** Decoding a 16-bit field reads it most significant byte first. */
  lemma Decode16IsBigEndian(b: bytes)
    requires |b| == 2
    ensures Decode16(b) == BigEndian(b)
    ensures Encode16(Decode16(b)) == b
  {
    SwapShortLoad(b);
    BigEndian2(b);
    SwapShortTwice(Load16(b));
    StoreLoad16(0, b);
  }

  /** A 16-bit field is written most significant byte first, and reading it gives the value back. */
  lemma Encode16IsBigEndian(i: uint16)
    ensures BigEndian(Encode16(i)) == i
    ensures Decode16(Encode16(i)) == i
  {
    SwapShortTwice(i);
    StoreLoad16(SwapShort(i), Encode16(i));
    Decode16IsBigEndian(Encode16(i));
  }

  // ---- 32 bits ----

  lemma SwapLongTwice(i: uint32)
    ensures SwapLong(SwapLong(i)) == i
  {
    var lo, hi := i % 0x1_0000, i / 0x1_0000;
    Join16(SwapShort(lo), SwapShort(hi));
    SwapShortTwice(lo);
    SwapShortTwice(hi);
  }

  lemma StoreLoad32(i: uint32, b: bytes)
    requires |b| == 4
    ensures Load32(Store32(i)) == i
    ensures Store32(Load32(b)) == b
  {
    assert Store32(i)[..2] == Store16(i % 0x1_0000) && Store32(i)[2..] == Store16(i / 0x1_0000);
    var lo, hi := Load16(b[..2]), Load16(b[2..]);
    Join16(hi, lo);
    StoreLoad16(i % 0x1_0000, b[..2]);
    StoreLoad16(i / 0x1_0000, b[2..]);
  }

  /** Decoding a 32-bit field reads it most significant byte first. */
  lemma Decode32IsBigEndian(b: bytes)
    requires |b| == 4
    ensures Decode32(b) == BigEndian(b)
    ensures Encode32(Decode32(b)) == b
  {
    var lo, hi := Load16(b[..2]), Load16(b[2..]);
    Join16(hi, lo);
    SwapShortLoad(b[..2]);
    SwapShortLoad(b[2..]);
    BigEndian4(b);
    SwapLongTwice(Load32(b));
    StoreLoad32(0, b);
  }

  /** A 32-bit field is written most significant byte first, and reading it gives the value back. */
  lemma Encode32IsBigEndian(i: uint32)
    ensures BigEndian(Encode32(i)) == i
    ensures Decode32(Encode32(i)) == i
  {
    SwapLongTwice(i);
    StoreLoad32(SwapLong(i), Encode32(i));
    Decode32IsBigEndian(Encode32(i));
  }

  lemma SwapLongLongJoined(hi: uint32, lo: uint32)
    ensures SwapLongLong(hi * 0x1_0000_0000 + lo) == SwapLong(lo) * 0x1_0000_0000 + SwapLong(hi)
  {
    Join32(hi, lo);
  }

  lemma SwapLongLongTwice(i: uint64)
    ensures SwapLongLong(SwapLongLong(i)) == i
  {
    hide SwapLong;
    var lo, hi := i % 0x1_0000_0000, i / 0x1_0000_0000;
    SwapLongTwice(lo);
    SwapLongTwice(hi);
    SwapLongLongJoined(hi, lo);
    SwapLongLongJoined(SwapLong(lo), SwapLong(hi));
  }

  lemma StoreLoad64(i: uint64, b: bytes)
    requires |b| == 8
    ensures Load64(Store64(i)) == i
    ensures Store64(Load64(b)) == b
  {
    var lo, hi := i % 0x1_0000_0000, i / 0x1_0000_0000;
    assert Store64(i)[..4] == Store32(lo) && Store64(i)[4..] == Store32(hi);
    StoreLoad32(lo, b[..4]);
    StoreLoad32(hi, b[4..]);
    Join32(Load32(b[4..]), Load32(b[..4]));
  }

  lemma BigEndianAppend4(a: bytes, b: bytes)
    requires |b| == 4
    ensures BigEndian(a + b) == BigEndian(a) * 0x1_0000_0000 + BigEndian(b)
  {
    var c := a + b;
    var n := |a|;
    assert c[..n] == a;
    assert c[..n + 4] == c && c[..n + 4][..n + 3] == c[..n + 3];
    assert c[..n + 3][..n + 2] == c[..n + 2] && c[..n + 2][..n + 1] == c[..n + 1] && c[..n + 1][..n] == a;
    assert BigEndian(c[..n + 1]) == BigEndian(a) * 0x100 + b[0];
    assert BigEndian(c[..n + 2]) == BigEndian(c[..n + 1]) * 0x100 + b[1];
    assert BigEndian(c[..n + 3]) == BigEndian(c[..n + 2]) * 0x100 + b[2];
    BigEndian4(b);
  }

  /** Decoding a 64-bit field reads it most significant byte first. */
  lemma Decode64IsBigEndian(b: bytes)
    requires |b| == 8
    ensures Decode64(b) == BigEndian(b)
    ensures Encode64(Decode64(b)) == b
  {
    hide SwapLong, Load32, Store32, BigEndian;
    SwapLongLongJoined(Load32(b[4..]), Load32(b[..4]));
    Decode32IsBigEndian(b[..4]);
    Decode32IsBigEndian(b[4..]);
    BigEndianAppend4(b[..4], b[4..]);
    assert b[..4] + b[4..] == b;
    SwapLongLongTwice(Load64(b));
    StoreLoad64(0, b);
  }

  /** A 64-bit field is written most significant byte first, and reading it gives the value back. */
  lemma Encode64IsBigEndian(i: uint64)
    ensures BigEndian(Encode64(i)) == i
    ensures Decode64(Encode64(i)) == i
  {
    SwapLongLongTwice(i);
    StoreLoad64(SwapLongLong(i), Encode64(i));
    Decode64IsBigEndian(Encode64(i));
  }
}

/** Bytes, fixed-width unsigned integers and their big- and little-endian encodings. */
module Bytes {
  type byte = x: int | 0 <= x < 0x100
  type u16 = x: int | 0 <= x < 0x1_0000
  type u32 = x: int | 0 <= x < 0x1_0000_0000
  type u64 = x: int | 0 <= x < 0x1_0000_0000_0000_0000

  datatype Option<+T> = None | Some(value: T)

  /** The same 32 bits as a signed integer: a word with its top bit set is negative. */
  function Signed32(x: u32): (r: int)
    ensures -0x8000_0000 <= r < 0x8000_0000
  {
    if x < 0x8000_0000 then x else x - 0x1_0000_0000
  }

  function PutU16(x: u16): (s: seq<byte>)
    ensures |s| == 2
  {
    [x / 0x100, x % 0x100]
  }

  function GetU16(s: seq<byte>): u16
    requires |s| >= 2
  {
    s[0] as int * 0x100 + s[1]
  }

  function PutU32(x: u32): (s: seq<byte>)
    ensures |s| == 4
  {
    [x / 0x100_0000, x / 0x1_0000 % 0x100, x / 0x100 % 0x100, x % 0x100]
  }

  function GetU32(s: seq<byte>): u32
    requires |s| >= 4
  {
    ((s[0] as int * 0x100 + s[1]) * 0x100 + s[2]) * 0x100 + s[3]
  }

  function PutU64(x: u64): (s: seq<byte>)
    ensures |s| == 8
  {
    PutU32(x / 0x1_0000_0000) + PutU32(x % 0x1_0000_0000)
  }

  function GetU64(s: seq<byte>): u64
    requires |s| >= 8
  {
    GetU32(s) as int * 0x1_0000_0000 + GetU32(s[4..])
  }

  /** Little-endian form, used by the spacedesk protocol. */
  function PutLe32(x: u32): (s: seq<byte>)
    ensures |s| == 4
  {
    [x % 0x100, x / 0x100 % 0x100, x / 0x1_0000 % 0x100, x / 0x100_0000]
  }

  function GetLe32(s: seq<byte>): u32
    requires |s| >= 4
  {
    s[0] as int + 0x100 * (s[1] as int + 0x100 * (s[2] as int + 0x100 * s[3] as int))
  }

  lemma U16RoundTrip(x: u16, tail: seq<byte>)
    ensures GetU16(PutU16(x) + tail) == x
  {
  }

  lemma U32RoundTrip(x: u32, tail: seq<byte>)
    ensures GetU32(PutU32(x) + tail) == x
  {
    assert x == x / 0x100 * 0x100 + x % 0x100;
    assert x / 0x100 == x / 0x1_0000 * 0x100 + x / 0x100 % 0x100;
    assert x / 0x1_0000 == x / 0x100_0000 * 0x100 + x / 0x1_0000 % 0x100;
  }

  lemma U64RoundTrip(x: u64, tail: seq<byte>)
    ensures GetU64(PutU64(x) + tail) == x
  {
    var hi, lo := x / 0x1_0000_0000, x % 0x1_0000_0000;
    var s := PutU64(x) + tail;
    U32RoundTrip(hi, PutU32(lo) + tail);
    assert s == PutU32(hi) + (PutU32(lo) + tail);
    U32RoundTrip(lo, tail);
    assert s[4..] == PutU32(lo) + tail;
  }

  lemma Le32RoundTrip(x: u32, tail: seq<byte>)
    ensures GetLe32(PutLe32(x) + tail) == x
  {
    assert x == x / 0x100 * 0x100 + x % 0x100;
    assert x / 0x100 == x / 0x1_0000 * 0x100 + x / 0x100 % 0x100;
    assert x / 0x1_0000 == x / 0x100_0000 * 0x100 + x / 0x1_0000 % 0x100;
  }

  /** Network byte order, and the little-endian one. */
  lemma ByteOrder(a: byte, b: byte, c: byte, d: byte)
    ensures GetU16([a, b]) == 256 * a + b
    ensures GetU32([a, b, c, d]) == 16777216 * a + 65536 * b + 256 * c + d
    ensures GetLe32([a, b, c, d]) == a + 256 * b + 65536 * c + 16777216 * d
    ensures GetU64([a, b, c, d] + [a, b, c, d]) == 4294967297 * GetU32([a, b, c, d])
    ensures PutU16(0x0102) == [1, 2] && PutU32(0x01020304) == [1, 2, 3, 4] && PutLe32(0x01020304) == [4, 3, 2, 1]
    ensures PutU64(0x0102030405060708) == [1, 2, 3, 4, 5, 6, 7, 8]
    ensures Signed32(0xFFFF_FFFF) == -1 && Signed32(0x7FFF_FFFF) == 2147483647
  {
    var s := [a, b, c, d] + [a, b, c, d];
    assert s[4..] == [a, b, c, d];
  }

  lemma Assoc<T>(a: seq<T>, b: seq<T>, c: seq<T>)
    ensures a + (b + c) == (a + b) + c
  {
  }

  /** The concatenation of a list of byte strings. */
  function Concat(parts: seq<seq<byte>>): seq<byte> {
    if parts == [] then [] else parts[0] + Concat(parts[1..])
  }

  lemma {:induction false} ConcatAppend(a: seq<seq<byte>>, b: seq<seq<byte>>)
    ensures Concat(a + b) == Concat(a) + Concat(b)
  {
    if a == [] {
      assert a + b == b;
    } else {
      ConcatAppend(a[1..], b);
      assert (a + b)[1..] == a[1..] + b;
      Assoc(a[0], Concat(a[1..]), Concat(b));
    }
  }

  lemma ConcatSnoc(a: seq<seq<byte>>, s: seq<byte>)
    ensures Concat(a + [s]) == Concat(a) + s
  {
    ConcatAppend(a, [s]);
    assert Concat([s]) == s + Concat([]) == s;
  }
}

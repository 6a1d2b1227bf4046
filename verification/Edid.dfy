/** host/src/edid.cpp: a timing as a 128-byte EDID block, and the reader of its detailed timing
    descriptor (VESA E-EDID Release A, section 3.10.2). */
module Edid {
  import opened Bytes
  import opened Cvt

  /** The low byte; bits 8..11; bits 8..9; bits 4..5 of a field. */
  function Low(x: nat): byte { x % 0x100 }
  function High4(x: nat): byte { x / 0x100 % 0x10 }
  function High2(x: nat): byte { x / 0x100 % 4 }
  function Mid2(x: nat): byte { x / 0x10 % 4 }

  /** Fields the descriptor has a place for. */
  predicate Plain(t: Timing) {
    && t.pixelClockKhz >= 0 && t.hMm >= 0 && t.vMm >= 0
    && t.hActive >= 0 && t.hBlank >= 0 && t.hFront >= 0 && t.hSync >= 0
    && t.vActive >= 0 && t.vBlank >= 0 && t.vFront >= 0 && t.vSync >= 0
  }

  predicate Fits(t: Timing) {
    && Plain(t) && t.pixelClockKhz % 10 == 0 && t.pixelClockKhz < 655360
    && t.hActive < 0x1000 && t.hBlank < 0x1000 && t.vActive < 0x1000 && t.vBlank < 0x1000
    && t.hFront < 0x400 && t.hSync < 0x400 && t.vFront < 0x40 && t.vSync < 0x40
    && t.hMm < 0x1000 && t.vMm < 0x1000
  }

  function Dtd(t: Timing): (d: seq<byte>)
    requires Plain(t)
    ensures |d| == 18
  {
    var clk: nat := t.pixelClockKhz / 10;
    [ Low(clk), clk / 0x100 % 0x100,
      Low(t.hActive), Low(t.hBlank), High4(t.hActive) * 0x10 + High4(t.hBlank),
      Low(t.vActive), Low(t.vBlank), High4(t.vActive) * 0x10 + High4(t.vBlank),
      Low(t.hFront), Low(t.hSync),
      t.vFront % 0x10 * 0x10 + t.vSync % 0x10,
      High2(t.hFront) * 0x40 + High2(t.hSync) * 0x10 + Mid2(t.vFront) * 4 + Mid2(t.vSync),
      Low(t.hMm), Low(t.vMm), High4(t.hMm) * 0x10 + High4(t.vMm),
      0, 0, 0x1E ]
  }

  /** What a display driver reads. */
  function ReadDtd(d: seq<byte>): Timing
    requires |d| == 18
  {
    Timing(
      (d[0] as int + d[1] as int * 0x100) * 10,
      d[2] + d[4] as int / 0x10 * 0x100,
      d[8] + d[11] as int / 0x40 * 0x100,
      d[9] + d[11] as int / 0x10 % 4 * 0x100,
      d[3] + d[4] as int % 0x10 * 0x100,
      d[5] + d[7] as int / 0x10 * 0x100,
      d[10] as int / 0x10 + d[11] as int / 4 % 4 * 0x10,
      d[10] as int % 0x10 + d[11] as int % 4 * 0x10,
      d[6] + d[7] as int % 0x10 * 0x100,
      d[12] + d[14] as int / 0x10 * 0x100,
      d[13] + d[14] as int % 0x10 * 0x100)
  }

  lemma Field12(x: nat)
    ensures Low(x) + High4(x) as int * 0x100 == x <==> x < 0x1000
  {
    assert x == x / 0x100 * 0x100 + x % 0x100;
  }

  lemma Field10(x: nat)
    ensures Low(x) + High2(x) as int * 0x100 == x <==> x < 0x400
  {
    assert x == x / 0x100 * 0x100 + x % 0x100;
  }

  lemma Field6(x: nat)
    ensures x % 0x10 + Mid2(x) as int * 0x10 == x <==> x < 0x40
  {
    assert x == x / 0x10 * 0x10 + x % 0x10;
  }

  lemma Nibbles(hi: byte, lo: byte)
    requires hi < 0x10 && lo < 0x10
    ensures (hi as int * 0x10 + lo) / 0x10 == hi && (hi as int * 0x10 + lo) % 0x10 == lo
  {
  }

  lemma Pair(q: nat, r: nat)
    requires r < 4
    ensures (4 * q + r) / 4 == q && (4 * q + r) % 4 == r
  {
  }

  lemma Pairs(a: byte, b: byte, c: byte, d: byte)
    requires a < 4 && b < 4 && c < 4 && d < 4
    ensures var x := a as int * 0x40 + b as int * 0x10 + c as int * 4 + d;
            && x / 0x40 == a && x / 0x10 % 4 == b && x / 4 % 4 == c && x % 4 == d
  {
    var ab: nat := 4 * a + b;
    var abc: nat := 4 * ab + c;
    var x: nat := 4 * abc + d;
    Pair(a, b); Pair(ab, c); Pair(abc, d);
    assert x / 0x10 == x / 4 / 4 && x / 0x40 == x / 0x10 / 4;
  }

  /** What the fields of a timing come back as. */
  function Cut(t: Timing): Timing
    requires Plain(t)
  {
    var clk: nat := t.pixelClockKhz / 10;
    Timing(
      (Low(clk) + clk / 0x100 % 0x100 * 0x100) * 10,
      Low(t.hActive) + High4(t.hActive) as int * 0x100,
      Low(t.hFront) + High2(t.hFront) as int * 0x100,
      Low(t.hSync) + High2(t.hSync) as int * 0x100,
      Low(t.hBlank) + High4(t.hBlank) as int * 0x100,
      Low(t.vActive) + High4(t.vActive) as int * 0x100,
      t.vFront % 0x10 + Mid2(t.vFront) as int * 0x10,
      t.vSync % 0x10 + Mid2(t.vSync) as int * 0x10,
      Low(t.vBlank) + High4(t.vBlank) as int * 0x100,
      Low(t.hMm) + High4(t.hMm) as int * 0x100,
      Low(t.vMm) + High4(t.vMm) as int * 0x100)
  }

  lemma ReadsCut(t: Timing)
    requires Plain(t)
    ensures ReadDtd(Dtd(t)) == Cut(t)
  {
    hide Low, High4, High2, Mid2;
    HighRange(t.hActive, t.hBlank); HighRange(t.vActive, t.vBlank); HighRange(t.hMm, t.vMm);
    HighRange(t.hFront, t.hSync); HighRange(t.vFront, t.vSync);
    Nibbles(t.vFront % 0x10, t.vSync % 0x10);
    Pairs(High2(t.hFront), High2(t.hSync), Mid2(t.vFront), Mid2(t.vSync));
  }

  /** The descriptor carries a timing exactly when its fields fit. */
  lemma DtdRoundTrip(t: Timing)
    requires Plain(t)
    ensures ReadDtd(Dtd(t)) == t <==> Fits(t)
  {
    hide Low, High4, High2, Mid2, Dtd, ReadDtd;
    ReadsCut(t);
    Field12(t.hActive); Field12(t.hBlank); Field12(t.vActive); Field12(t.vBlank);
    Field12(t.hMm); Field12(t.vMm);
    Field10(t.hFront); Field10(t.hSync);
    Field6(t.vFront); Field6(t.vSync);
    ClockField(t.pixelClockKhz);
  }

  lemma HighRange(x: nat, y: nat)
    ensures High4(x) < 0x10 && High4(y) < 0x10
    ensures High2(x) < 4 && High2(y) < 4 && Mid2(x) < 4 && Mid2(y) < 4
    ensures (High4(x) as int * 0x10 + High4(y)) / 0x10 == High4(x)
    ensures (High4(x) as int * 0x10 + High4(y)) % 0x10 == High4(y)
  {
    Nibbles(High4(x), High4(y));
  }

  lemma ClockField(khz: nat)
    ensures var clk: nat := khz / 10;
            (Low(clk) + clk / 0x100 % 0x100 * 0x100) * 10 == khz <==> khz % 10 == 0 && khz < 655360
  {
    var clk: nat := khz / 10;
    assert clk == clk / 0x100 * 0x100 + clk % 0x100;
    assert khz == 10 * clk + khz % 10;
  }

  const HEADER: seq<byte> := [0, 0xFF, 0xFF, 0xFF, 0xFF, 0xFF, 0xFF, 0]
  const MAKER: seq<byte> := [0x12, 0x18, 1, 0]  // "DPX", product 1
  const CHROMA: seq<byte> := [0xEE, 0x91, 0xA3, 0x54, 0x4C, 0x99, 0x26, 0x0F, 0x50, 0x54]
  const NAME: seq<byte> := [0, 0, 0, 0xFC, 0, 0x64, 0x72, 0x6F, 0x70, 0x70, 0x69, 0x78, 0x0A, 0x20, 0x20, 0x20, 0x20, 0x20]
  const DUMMY: seq<byte> := [0, 0, 0, 0x10] + Fill(0, 14)

  function Fill(x: byte, n: nat): (s: seq<byte>)
    ensures |s| == n
  {
    seq(n, i => x)
  }

  function Sum(s: seq<byte>): nat {
    if s == [] then 0 else Sum(s[..|s| - 1]) + s[|s| - 1]
  }

  /** The display's week, year, version and basic parameters. */
  function Basic(t: Timing): (s: seq<byte>)
    requires Plain(t)
    ensures |s| == 9
  {
    [1, 0x21, 1, 3, 0x80, t.hMm / 10 % 0x100, t.vMm / 10 % 0x100, 0x78, 0x0A]
  }

  /** Everything but the checksum: identity and parameters, then the four descriptors. */
  function Identity(t: Timing, serial: u32): (s: seq<byte>)
    requires Plain(t)
    ensures |s| == 38
  {
    HEADER + MAKER + PutLe32(serial) + Basic(t) + CHROMA + Fill(0, 3)
  }

  function Body(t: Timing, serial: u32): (s: seq<byte>)
    requires Plain(t)
    ensures |s| == 127
  {
    Identity(t, serial) + Fill(1, 16) + Dtd(t) + NAME + DUMMY + DUMMY + [0]
  }

  function Checksum(s: seq<byte>): byte {
    (0x100 - Sum(s) % 0x100) % 0x100
  }

  function Block(t: Timing, serial: u32): (s: seq<byte>)
    requires Plain(t)
    ensures |s| == 128
  {
    Body(t, serial) + [Checksum(Body(t, serial))]
  }

  /** The array holds `s`, then zeros. */
  ghost predicate Holds(e: array<byte>, s: seq<byte>)
    reads e
  {
    |s| <= e.Length && e[..|s|] == s && forall k | |s| <= k < e.Length :: e[k] == 0
  }

  method Put(e: array<byte>, ghost before: seq<byte>, s: seq<byte>, at: nat)
    requires Holds(e, before) && at == |before| && at + |s| <= e.Length
    modifies e
    ensures Holds(e, before + s)
  {
    for i := 0 to |s|
      invariant e[..at] == before
      invariant e[at..at + i] == s[..i]
      invariant forall k | at + i <= k < e.Length :: e[k] == 0
    {
      e[at + i] := s[i];
    }
  }

  lemma Leave(e: array<byte>, before: seq<byte>, n: nat)
    requires Holds(e, before) && |before| + n <= e.Length
    ensures Holds(e, before + Fill(0, n))
  {
  }

  method PutIdentity(e: array<byte>, t: Timing, serial: u32)
    requires e.Length == 128 && Plain(t) && Holds(e, [])
    modifies e
    ensures Holds(e, Identity(t, serial))
  {
    hide Holds, Basic, PutLe32, Fill;
    Put(e, [], HEADER, 0);
    Put(e, HEADER, MAKER, 8);
    Put(e, HEADER + MAKER, PutLe32(serial), 12);
    Put(e, HEADER + MAKER + PutLe32(serial), Basic(t), 16);
    Put(e, HEADER + MAKER + PutLe32(serial) + Basic(t), CHROMA, 25);
    Leave(e, HEADER + MAKER + PutLe32(serial) + Basic(t) + CHROMA, 3);
  }

  method PutBody(e: array<byte>, t: Timing, serial: u32)
    requires e.Length == 128 && Plain(t) && Holds(e, [])
    modifies e
    ensures Holds(e, Body(t, serial))
  {
    hide Holds, Identity, Dtd, Fill;
    PutIdentity(e, t, serial);
    ghost var s := Identity(t, serial);
    Put(e, s, Fill(1, 16), 38);
    Put(e, s + Fill(1, 16), Dtd(t), 54);
    Put(e, s + Fill(1, 16) + Dtd(t), NAME, 72);
    Put(e, s + Fill(1, 16) + Dtd(t) + NAME, DUMMY, 90);
    Put(e, s + Fill(1, 16) + Dtd(t) + NAME + DUMMY, DUMMY, 108);
    Put(e, s + Fill(1, 16) + Dtd(t) + NAME + DUMMY + DUMMY, [0], 126);
  }

  method BuildEdid(t: Timing, serial: u32) returns (block: seq<byte>)
    requires Plain(t)
    ensures block == Block(t, serial)
  {
    hide Body;
    var e := new byte[128](_ => 0);
    PutBody(e, t, serial);
    var sum: nat := 0;
    for i := 0 to 127
      invariant sum == Sum(e[..i])
    {
      assert e[..i + 1][..i] == e[..i];
      sum := sum + e[i] as int;
    }
    e[127] := (0x100 - sum % 0x100) % 0x100;
    block := e[..];
  }

  /** The block sums to zero, its serial is read back and so is its timing, if the fields fit. */
  lemma BlockMeaning(t: Timing, serial: u32)
    requires Plain(t)
    ensures Sum(Block(t, serial)) % 0x100 == 0
    ensures Block(t, serial)[..8] == HEADER
    ensures GetLe32(Block(t, serial)[12..]) == serial
    ensures ReadDtd(Block(t, serial)[54..72]) == t <==> Fits(t)
  {
    hide Dtd, Fits, ReadDtd, PutLe32, GetLe32, Sum;
    SumsToZero(Body(t, serial));
    var block := Block(t, serial);
    assert block[12..] == PutLe32(serial) + block[16..];
    Le32RoundTrip(serial, block[16..]);
    assert block[54..72] == Dtd(t);
    DtdRoundTrip(t);
  }

  lemma SumsToZero(s: seq<byte>)
    ensures Sum(s + [Checksum(s)]) % 0x100 == 0
  {
    hide Checksum;
    assert (s + [Checksum(s)])[..|s|] == s;
    Complement(s);
  }

  lemma Complement(s: seq<byte>)
    ensures (Sum(s) + Checksum(s) as int) % 0x100 == 0
  {
    Pad(Sum(s), Sum(s) / 0x100, Sum(s) % 0x100);
  }

  lemma Pad(n: nat, q: nat, m: nat)
    requires n == q * 0x100 + m && m < 0x100
    ensures (n + (0x100 - m) % 0x100) % 0x100 == 0
  {
    if m != 0 {
      assert n + (0x100 - m) % 0x100 == (q + 1) * 0x100;
    }
  }

  lemma DistinctSerials(t: Timing, u: Timing, a: u32, b: u32)
    requires Plain(t) && Plain(u) && a != b
    ensures Block(t, a) != Block(u, b)
  {
    BlockMeaning(t, a);
    BlockMeaning(u, b);
  }

  /** A mode of up to 4095 pixels either way and up to 120 Hz fits as soon as its clock does. */
  lemma ModeSurvives(width: int, height: int, refresh: int, serial: u32)
    requires 0 < width < 0x1000 && 0 < height < 0x1000 && 0 < refresh <= 120
    ensures var t := ModeTiming(width, height, refresh);
            Plain(t) && (ReadDtd(Block(t, serial)[54..72]) == t <==> t.pixelClockKhz < 655360)
  {
    hide Block, ReadDtd, CvtTiming, HPeriodUs, VBlankLines, PixelRate, ClockKhz;
    var t := CvtTiming(width, height, refresh);
    CvtShape(width, height, refresh);
    CvtPlain(width, height, refresh);
    BlankingIsShort(height, t.vSync, refresh);
    RateAboveZero(HTotal(t), VTotal(t), refresh);
    ClockBounds(PixelRate(HTotal(t), VTotal(t), refresh));
    BlockMeaning(ModeTiming(width, height, refresh), serial);
  }

  lemma CvtPlain(width: int, height: int, refresh: int)
    requires 0 < width < 0x1000 && 0 < height < 0x1000 && 0 < refresh
    ensures var t := CvtTiming(width, height, refresh);
            0 <= t.hActive < 0x1000 && 0 <= t.hMm < 0x1000 && 0 <= t.vMm < 0x1000
  {
  }

  lemma BlankingIsShort(height: int, vs: int, refresh: int)
    requires 0 < height < 0x1000 && 0 < refresh <= 120 && 4 <= vs <= 10
    requires HPeriodUs(height, refresh) != 0.0
    ensures 0 < VBlankLines(height, vs, HPeriodUs(height, refresh)) < 0x1000
  {
    hide HPeriodUs, VBlankLines;
    var hp := HPeriodUs(height, refresh);
    var r, lines := refresh as real, (height + V_FRONT) as real;
    HPeriodNonZero(height, refresh);
    PeriodTimes(height, refresh);
    FewestLines(height, vs, hp);
    LongLines(hp, lines, r);
    FillsEasily(hp);
  }

  lemma LongLines(hp: real, lines: real, r: real)
    requires (hp * lines + 460.0) * r == 1000000.0 && 0.0 < lines <= 4098.0 && 0.0 < r <= 120.0
    ensures hp >= 1.0
  {
    if hp < 1.0 {
      TimesGrows(hp, 1.0, lines);
      var t := hp * lines + 460.0;
      assert t <= 4558.0;
      TimesGrows(t, 4558.0, r);
    }
  }

  lemma FillsEasily(hp: real)
    requires hp >= 1.0
    ensures Fills(0xFFF, hp)
  {
  }

  /** The block byte by byte: maker DPX (five bits a letter), made in 2023, EDID 1.3, digital, sizes
      in whole centimetres modulo 256, no standard timings, the name, two empty descriptors, no extension. */
  lemma BlockInFigures(t: Timing, serial: u32)
    requires Plain(t)
    ensures var b := Block(t, serial);
            && b[..8] == [0, 255, 255, 255, 255, 255, 255, 0]
            && b[8] as int * 256 + b[9] == (4 * 32 + 16) * 32 + 24 && b[10..12] == [1, 0]
            && b[16] == 1 && 1990 + b[17] as int == 2023 && b[18..21] == [1, 3, 0x80]
            && 10 * b[21] as int <= t.hMm % 2560 < 10 * b[21] as int + 10
            && 10 * b[22] as int <= t.vMm % 2560 < 10 * b[22] as int + 10
            && b[23..25] == [0x78, 0x0A]
            && b[25..35] == [0xEE, 0x91, 0xA3, 0x54, 0x4C, 0x99, 0x26, 0x0F, 0x50, 0x54]
            && b[35..38] == [0, 0, 0]
  {
    hide Dtd, PutLe32, Sum, Checksum, Body;
    var b, id := Block(t, serial), Identity(t, serial);
    BodyParts(t, serial);
    assert forall i | 0 <= i < 38 :: b[i] == id[i];
    assert b[16..25] == Basic(t);
    Within(b, 16, 25, 2, 5);
    Within(b, 16, 25, 7, 9);
    assert Basic(t)[2..5] == [1, 3, 0x80] && Basic(t)[7..9] == [0x78, 0x0A];
    Centimetres(t.hMm);
    Centimetres(t.vMm);
    hide Basic;
    assert b[21] == Basic(t)[5] && b[22] == Basic(t)[6];
  }

  lemma Centimetres(mm: nat)
    ensures var cm := mm / 10 % 0x100; 10 * cm <= mm % 2560 < 10 * cm + 10
  {
    var rounds, cm, tenth := mm / 2560, mm % 2560 / 10, mm % 10;
    assert mm == 2560 * rounds + 10 * cm + tenth by { assert mm % 2560 % 10 == tenth; }
    assert mm / 10 == 256 * rounds + cm && cm < 256;
  }

  lemma Within(b: seq<byte>, i: nat, j: nat, x: nat, y: nat)
    requires i + y <= j <= |b| && x <= y
    ensures b[i..j][x..y] == b[i + x..i + y]
  {
    var s := b[i..j];
    assert forall k | x <= k < y :: s[k] == b[i + k];
    assert forall k | 0 <= k < y - x :: s[x..y][k] == b[i + x..i + y][k];
  }

  lemma BodyParts(t: Timing, serial: u32)
    requires Plain(t)
    ensures var b := Block(t, serial);
            && b[..38] == Identity(t, serial) && b[38..54] == Fill(1, 16) && b[54..72] == Dtd(t)
            && b[72..90] == NAME && b[90..108] == DUMMY && b[108..126] == DUMMY && b[126] == 0
  {
    hide Identity, Dtd, Sum, Checksum, Fill;
  }

  lemma DescriptorsInFigures(t: Timing, serial: u32)
    requires Plain(t)
    ensures var b := Block(t, serial);
            && (forall i | 38 <= i < 54 :: b[i] == 1)
            && b[69..72] == [0, 0, 0x1E] && b[72..77] == [0, 0, 0, 0xFC, 0]
            && (forall i | 77 <= i < 84 :: b[i] == "droppix"[i - 77] as int) && b[84..90] == [10, 32, 32, 32, 32, 32]
            && b[90..94] == b[108..112] == [0, 0, 0, 16] && b[126] == 0
            && (forall i | 94 <= i < 108 || 112 <= i < 126 :: b[i] == 0)
  {
    hide Block;
    var b := Block(t, serial);
    BodyParts(t, serial);
    Within(b, 54, 72, 15, 18);
    assert Dtd(t)[15..18] == [0, 0, 0x1E];
    assert forall i | 38 <= i < 54 :: b[i] == b[38..54][i - 38];
    Within(b, 72, 90, 0, 5); Within(b, 72, 90, 5, 12); Within(b, 72, 90, 12, 18);
    Within(b, 90, 108, 0, 4); Within(b, 108, 126, 0, 4);
    assert NAME[0..5] == [0, 0, 0, 0xFC, 0] && NAME[12..18] == [10, 32, 32, 32, 32, 32];
    assert DUMMY[0..4] == [0, 0, 0, 16];
    assert forall i | 94 <= i < 108 :: b[i] == b[90..108][i - 90];
    assert forall i | 112 <= i < 126 :: b[i] == b[108..126][i - 108];
    assert NAME[5..12] == [0x64, 0x72, 0x6F, 0x70, 0x70, 0x69, 0x78];
    assert forall i | 77 <= i < 84 :: b[i] == b[77..84][i - 77];
  }
}

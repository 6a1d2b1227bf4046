/** The HELLO body: the host's codec (host/src/protocol.cpp) and the two client encoders
    (Protocol.kt, web/src/protocol.ts). */
module HelloCodec {
  import opened Bytes

  datatype Hello = Hello(version: u32, width: u32, height: u32, density: u32,
                         fps: u32, audio: byte, orientation: byte, bitrate: u32,
                         wallCol: u16, wallRow: u16, name: seq<byte>, id: seq<byte>)

  /** A string with its length cast to 16 bits in front. */
  function PutString(s: seq<byte>): seq<byte> {
    PutU16(|s| % 0x1_0000) + s
  }

  function Fixed(h: Hello): (s: seq<byte>)
    ensures |s| == 16
  {
    PutU32(h.version) + PutU32(h.width) + PutU32(h.height) + PutU32(h.density)
  }

  function Extra4(h: Hello): (s: seq<byte>)
    ensures |s| == 6
  {
    PutU32(h.fps) + [h.audio, h.orientation]
  }

  function Walls(h: Hello): (s: seq<byte>)
    ensures |s| == 4
  {
    PutU16(h.wallCol) + PutU16(h.wallRow)
  }

  function Strings(h: Hello): seq<byte> {
    PutString(h.name) + PutString(h.id)
  }

  /** encode_hello of the host. */
  function EncodeHello(h: Hello): seq<byte> {
    Fixed(h)
    + (if h.version >= 4 then Extra4(h) else [])
    + (if h.version >= 5 then PutU32(h.bitrate) else [])
    + (if h.version >= 6 then Walls(h) else [])
    + Strings(h)
  }

  // ----- Decoding ----------------------------------------------------------

  /** decode_hello of the host: refuses fewer than 16 bytes, and otherwise leaves a field at
      its sentinel when the block that carries it is cut short. */
  function DecodeHello(b: seq<byte>): Option<Hello> {
    if |b| < 16 then None
    else
      var h := Hello(GetU32(b), GetU32(b[4..]), GetU32(b[8..]), GetU32(b[12..]), 0, 0, 0, 0, 0, 0, [], []);
      Some(if h.version < 4 then DecodeName(h, b[16..]) else Decode4(h, b[16..]))
  }

  function Decode4(h: Hello, b: seq<byte>): Hello {
    if |b| < 6 then h
    else
      var g := h.(fps := GetU32(b), audio := b[4], orientation := b[5]);
      if h.version < 5 then DecodeName(g, b[6..]) else Decode5(g, b[6..])
  }

  function Decode5(h: Hello, b: seq<byte>): Hello {
    if |b| < 4 then h
    else
      var g := h.(bitrate := GetU32(b));
      if h.version < 6 then DecodeName(g, b[4..]) else Decode6(g, b[4..])
  }

  function Decode6(h: Hello, b: seq<byte>): Hello {
    if |b| < 4 then h
    else DecodeName(h.(wallCol := GetU16(b), wallRow := GetU16(b[2..])), b[4..])
  }

  function DecodeName(h: Hello, b: seq<byte>): Hello {
    if |b| < 2 then DecodeId(h, b)
    else if |b| < 2 + GetU16(b) then h
    else DecodeId(h.(name := b[2..2 + GetU16(b)]), b[2 + GetU16(b)..])
  }

  function DecodeId(h: Hello, b: seq<byte>): Hello {
    if |b| < 2 || |b| < 2 + GetU16(b) then h else h.(id := b[2..2 + GetU16(b)])
  }

  // ----- The laws ----------------------------------------------------------

  /** What a body of this version can carry: later fields read as 0. */
  function Visible(h: Hello): Hello {
    h.(fps := if h.version >= 4 then h.fps else 0,
       audio := if h.version >= 4 then h.audio else 0,
       orientation := if h.version >= 4 then h.orientation else 0,
       bitrate := if h.version >= 5 then h.bitrate else 0,
       wallCol := if h.version >= 6 then h.wallCol else 0,
       wallRow := if h.version >= 6 then h.wallRow else 0)
  }

  /** Where the name starts. */
  function NameAt(version: u32): nat {
    if version < 4 then 16 else if version == 4 then 22 else if version == 5 then 26 else 30
  }

  /** The strings that n bytes hold whole, the first of them starting at `at`. */
  function Named(h: Hello, sent: Hello, at: nat, n: nat): Hello {
    h.(name := if n >= at + 2 + |sent.name| then sent.name else [],
       id := if n >= at + 4 + |sent.name| + |sent.id| then sent.id else [])
  }

  /** What the first k bytes of a body hold: each field that is in them whole. */
  function Arrived(h: Hello, k: nat): Hello {
    var v := Visible(h);
    Named(v.(fps := if k >= 22 then v.fps else 0,
             audio := if k >= 22 then v.audio else 0,
             orientation := if k >= 22 then v.orientation else 0,
             bitrate := if k >= 26 then v.bitrate else 0,
             wallCol := if k >= 30 then v.wallCol else 0,
             wallRow := if k >= 30 then v.wallRow else 0), h, NameAt(h.version), k)
  }

  lemma CutPrefix(b: seq<byte>, head: seq<byte>, tail: seq<byte>)
    requires b <= head + tail
    ensures |b| >= |head| ==> b == head + b[|head|..] && b[|head|..] <= tail
  {
    if |b| >= |head| {
      assert b[..|head|] == head;
      assert b[|head|..] == (head + tail)[|head|..|b|] == tail[..|b| - |head|];
    }
  }

  lemma IdBack(h: Hello, id: seq<byte>, b: seq<byte>)
    requires |id| < 0x1_0000 && b <= PutString(id)
    ensures DecodeId(h, b) == if b == PutString(id) then h.(id := id) else h
  {
    CutPrefix(b, PutU16(|id|), id);
    if |b| >= 2 {
      U16RoundTrip(|id|, b[2..]);
      assert b == PutString(id) ==> b[2..2 + |id|] == id;
    }
  }

  lemma NameBack(h: Hello, s: Hello, b: seq<byte>)
    requires |s.name| < 0x1_0000 && |s.id| < 0x1_0000 && b <= Strings(s) && h.name == h.id == []
    ensures DecodeName(h, b) == Named(h, s, 0, |b|)
  {
    hide PutU16, GetU16;
    var n := |s.name|;
    Assoc(PutU16(n), s.name, PutString(s.id));
    CutPrefix(b, PutU16(n), s.name + PutString(s.id));
    if |b| >= 2 {
      U16RoundTrip(n, b[2..]);
      CutPrefix(b[2..], s.name, PutString(s.id));
      if |b| >= 2 + n {
        assert b[2..2 + n] == b[2..][..n] == s.name;
        assert b[2..][n..] == b[2 + n..];
        IdBack(h.(name := s.name), s.id, b[2 + n..]);
      }
    }
  }

  /** The parts of a body from each version block on. */
  function Tail6(h: Hello): seq<byte> {
    Walls(h) + Strings(h)
  }

  function Tail5(h: Hello): seq<byte> {
    PutU32(h.bitrate) + (if h.version >= 6 then Tail6(h) else Strings(h))
  }

  function Tail4(h: Hello): seq<byte> {
    Extra4(h) + (if h.version >= 5 then Tail5(h) else Strings(h))
  }

  function Tail(h: Hello): seq<byte> {
    if h.version >= 4 then Tail4(h) else Strings(h)
  }

  lemma EncodeIsTail(h: Hello)
    ensures EncodeHello(h) == Fixed(h) + Tail(h)
  {
    hide Fixed, Extra4, PutU32, Walls, Strings;
  }

  lemma Back6(h: Hello, s: Hello, b: seq<byte>)
    requires |s.name| < 0x1_0000 && |s.id| < 0x1_0000 && b <= Tail6(s)
    requires h.wallCol == h.wallRow == 0 && h.name == h.id == []
    ensures Decode6(h, b) ==
              Named(if |b| >= 4 then h.(wallCol := s.wallCol, wallRow := s.wallRow) else h, s, 4, |b|)
  {
    CutPrefix(b, Walls(s), Strings(s));
    if |b| >= 4 {
      assert b == PutU16(s.wallCol) + (PutU16(s.wallRow) + b[4..]);
      U16RoundTrip(s.wallCol, PutU16(s.wallRow) + b[4..]);
      U16RoundTrip(s.wallRow, b[4..]);
      assert b[2..] == PutU16(s.wallRow) + b[4..];
      NameBack(h.(wallCol := s.wallCol, wallRow := s.wallRow), s, b[4..]);
    }
  }

  lemma Back5(h: Hello, s: Hello, b: seq<byte>)
    requires |s.name| < 0x1_0000 && |s.id| < 0x1_0000 && b <= Tail5(s) && h.version == s.version
    requires h.bitrate == 0 && h.wallCol == h.wallRow == 0 && h.name == h.id == []
    ensures var n := |b|; var walls := s.version >= 6;
            Decode5(h, b) ==
              Named(h.(bitrate := if n >= 4 then s.bitrate else 0,
                       wallCol := if walls && n >= 8 then s.wallCol else 0,
                       wallRow := if walls && n >= 8 then s.wallRow else 0), s, if walls then 8 else 4, n)
  {
    hide Tail6, Strings, Decode6, DecodeName, GetU32, PutU32;
    CutPrefix(b, PutU32(s.bitrate), if s.version >= 6 then Tail6(s) else Strings(s));
    if |b| >= 4 {
      U32RoundTrip(s.bitrate, b[4..]);
      var g := h.(bitrate := s.bitrate);
      if s.version >= 6 { Back6(g, s, b[4..]); } else { NameBack(g, s, b[4..]); }
    }
  }

  lemma Back4(h: Hello, s: Hello, b: seq<byte>)
    requires |s.name| < 0x1_0000 && |s.id| < 0x1_0000 && b <= Tail4(s) && h.version == s.version >= 4
    requires h == Visible(s).(fps := 0, audio := 0, orientation := 0, bitrate := 0, wallCol := 0, wallRow := 0,
                              name := [], id := [])
    ensures Decode4(h, b) == Arrived(s, 16 + |b|)
  {
    hide Tail5, Strings, Decode5, DecodeName, GetU32, PutU32;
    CutPrefix(b, Extra4(s), if s.version >= 5 then Tail5(s) else Strings(s));
    if |b| >= 6 {
      assert b == PutU32(s.fps) + ([s.audio, s.orientation] + b[6..]);
      U32RoundTrip(s.fps, [s.audio, s.orientation] + b[6..]);
      var g := h.(fps := s.fps, audio := s.audio, orientation := s.orientation);
      if s.version >= 5 { Back5(g, s, b[6..]); } else { NameBack(g, s, b[6..]); }
    }
  }

  lemma FixedBack(h: Hello, rest: seq<byte>)
    ensures var b := Fixed(h) + rest;
            && GetU32(b) == h.version && GetU32(b[4..]) == h.width
            && GetU32(b[8..]) == h.height && GetU32(b[12..]) == h.density && b[16..] == rest
  {
    hide PutU32, GetU32;
    var b := Fixed(h) + rest;
    var r3 := PutU32(h.density) + rest;
    var r2 := PutU32(h.height) + r3;
    var r1 := PutU32(h.width) + r2;
    assert b == PutU32(h.version) + r1 && b[4..] == r1 && b[8..] == r2 && b[12..] == r3;
    U32RoundTrip(h.version, r1);
    U32RoundTrip(h.width, r2);
    U32RoundTrip(h.height, r3);
    U32RoundTrip(h.density, rest);
  }

  /** Truncation is graceful: every cut of a body that keeps the 16 fixed bytes decodes, to
      exactly the fields that are whole in it; the others keep their sentinel. */
  lemma TruncatedHello(h: Hello, k: nat)
    requires |h.name| < 0x1_0000 && |h.id| < 0x1_0000
    requires 16 <= k <= |EncodeHello(h)|
    ensures DecodeHello(EncodeHello(h)[..k]) == Some(Arrived(h, k))
    ensures k == |EncodeHello(h)| ==> Arrived(h, k) == Visible(h)
  {
    EncodeIsTail(h);
    WholeBody(h);
    hide Fixed, Tail, Tail4, Strings, Decode4, DecodeName, GetU32, EncodeHello;
    var b := EncodeHello(h)[..k];
    var rest := b[16..];
    CutPrefix(b, Fixed(h), Tail(h));
    FixedBack(h, rest);
    var start := Hello(h.version, h.width, h.height, h.density, 0, 0, 0, 0, 0, 0, [], []);
    TailBack(start, h, rest);
    assert k == |EncodeHello(h)| ==> rest == Tail(h);
  }

  lemma WholeBody(h: Hello)
    ensures |EncodeHello(h)| == NameAt(h.version) + 4 + |h.name| + |h.id|
  {
  }

  lemma TailBack(start: Hello, h: Hello, rest: seq<byte>)
    requires |h.name| < 0x1_0000 && |h.id| < 0x1_0000 && rest <= Tail(h)
    requires start == Hello(h.version, h.width, h.height, h.density, 0, 0, 0, 0, 0, 0, [], [])
    ensures var g := if h.version < 4 then DecodeName(start, rest) else Decode4(start, rest);
            g == Arrived(h, 16 + |rest|)
  {
    hide Tail4, Strings, Decode4, DecodeName;
    if h.version < 4 { NameBack(start, h, rest); } else { Back4(start, h, rest); }
  }

  /** decode_hello inverts encode_hello for every version, exactly when both strings are short
      enough for their 16-bit length. */
  lemma HelloRoundTrip(h: Hello)
    ensures DecodeHello(EncodeHello(h)) == Some(Visible(h)) <==> |h.name| < 0x1_0000 && |h.id| < 0x1_0000
  {
    var b := EncodeHello(h);
    if |h.name| < 0x1_0000 && |h.id| < 0x1_0000 {
      EncodeIsTail(h);
      assert b[..|b|] == b;
      TruncatedHello(h, |b|);
    } else {
      DecodedFits(b);
    }
  }

  predicate Fits(h: Hello) {
    |h.name| < 0x1_0000 && |h.id| < 0x1_0000
  }

  lemma NameFits(h: Hello, b: seq<byte>)
    requires Fits(h)
    ensures Fits(DecodeName(h, b))
  {
    hide GetU16;
  }

  lemma LaterFits(h: Hello, b: seq<byte>)
    requires Fits(h)
    ensures Fits(Decode6(h, b)) && Fits(Decode5(h, b)) && Fits(Decode4(h, b))
  {
    hide GetU16, GetU32, DecodeName;
    forall g: Hello, c: seq<byte> | Fits(g)
      ensures Fits(DecodeName(g, c))
    {
      NameFits(g, c);
    }
  }

  lemma DecodedFits(b: seq<byte>)
    ensures DecodeHello(b).Some? ==> Fits(DecodeHello(b).value)
  {
    hide GetU32, DecodeName, Decode4;
    if |b| >= 16 {
      var h := Hello(GetU32(b), GetU32(b[4..]), GetU32(b[8..]), GetU32(b[12..]), 0, 0, 0, 0, 0, 0, [], []);
      NameFits(h, b[16..]);
      LaterFits(h, b[16..]);
    }
  }

  // ----- The client encoders -----------------------------------------------

  /** x ushr n (Kotlin) and x >>> n (TypeScript): the 32-bit pattern, shifted down. */
  function Shift(x: int, pow: nat): nat
    requires pow > 0
  {
    x % 0x1_0000_0000 / pow
  }

  /** toByte() and & 0xff keep the low eight bits. */
  function LowByte(x: int): byte {
    x % 0x100
  }

  function ClientPutU32(x: int): seq<byte> {
    [LowByte(Shift(x, 0x100_0000)), LowByte(Shift(x, 0x1_0000)), LowByte(Shift(x, 0x100)), LowByte(x)]
  }

  function ClientPutU16(x: int): seq<byte> {
    [LowByte(Shift(x, 0x100)), LowByte(x)]
  }

  /** The version is a signed Int here, so the gates compare it as one. */
  function KotlinEncodeHello(h: Hello): seq<byte> {
    var version := Signed32(h.version);
    ClientPutU32(version) + ClientPutU32(Signed32(h.width))
    + ClientPutU32(Signed32(h.height)) + ClientPutU32(Signed32(h.density))
    + (if version >= 4 then ClientPutU32(Signed32(h.fps)) + [LowByte(h.audio)] + [LowByte(h.orientation)] else [])
    + (if version >= 5 then ClientPutU32(Signed32(h.bitrate)) else [])
    + (if version >= 6 then ClientPutU16(h.wallCol) + ClientPutU16(h.wallRow) else [])
    + ClientPutU16(|h.name|) + h.name + ClientPutU16(|h.id|) + h.id
  }

  /** The browser's encoder gates only the wall cell on the version. */
  function WebEncodeHello(h: Hello): seq<byte> {
    ClientPutU32(h.version) + ClientPutU32(h.width) + ClientPutU32(h.height) + ClientPutU32(h.density)
    + ClientPutU32(h.fps) + [LowByte(h.audio), LowByte(h.orientation)]
    + ClientPutU32(h.bitrate)
    + (if h.version >= 6 then ClientPutU16(h.wallCol) + ClientPutU16(h.wallRow) else [])
    + ClientPutU16(|h.name|) + h.name + ClientPutU16(|h.id|) + h.id
  }

  lemma ClientU32(x: u32)
    ensures ClientPutU32(x) == PutU32(x) == ClientPutU32(Signed32(x))
  {
    SameBits(x);
  }

  /** Reading the word as signed changes neither its bits nor its low byte. */
  lemma SameBits(x: u32)
    ensures Signed32(x) % 0x1_0000_0000 == x
    ensures Signed32(x) % 0x100 == x % 0x100
  {
    if x >= 0x8000_0000 {
      assert x == 0x100 * (x / 0x100) + x % 0x100;
      assert x - 0x1_0000_0000 == 0x100 * (x / 0x100 - 0x100_0000) + x % 0x100;
    }
  }

  lemma LowHalf(n: nat)
    ensures n / 0x100 % 0x100 == n % 0x1_0000 / 0x100 && n % 0x100 == n % 0x1_0000 % 0x100
  {
    var q, r := n / 0x1_0000, n % 0x1_0000;
    assert n == 0x100 * (0x100 * q + r / 0x100) + r % 0x100;
    assert n / 0x100 == 0x100 * q + r / 0x100;
  }

  lemma ModMod(n: nat)
    ensures n % 0x1_0000_0000 % 0x1_0000 == n % 0x1_0000
  {
    var q, r := n / 0x1_0000_0000, n % 0x1_0000_0000;
    assert n == 0x1_0000 * (0x1_0000 * q + r / 0x1_0000) + r % 0x1_0000;
  }

  lemma ClientU16(n: nat)
    ensures ClientPutU16(n) == PutU16(n % 0x1_0000)
  {
    LowHalf(n);
    LowHalf(n % 0x1_0000_0000);
    ModMod(n);
  }

  lemma ClientPieces(h: Hello)
    ensures ClientPutU32(h.version) == ClientPutU32(Signed32(h.version)) == PutU32(h.version)
    ensures ClientPutU32(h.width) == ClientPutU32(Signed32(h.width)) == PutU32(h.width)
    ensures ClientPutU32(h.height) == ClientPutU32(Signed32(h.height)) == PutU32(h.height)
    ensures ClientPutU32(h.density) == ClientPutU32(Signed32(h.density)) == PutU32(h.density)
    ensures ClientPutU32(h.fps) == ClientPutU32(Signed32(h.fps)) == PutU32(h.fps)
    ensures ClientPutU32(h.bitrate) == ClientPutU32(Signed32(h.bitrate)) == PutU32(h.bitrate)
    ensures ClientPutU16(h.wallCol) == PutU16(h.wallCol) && ClientPutU16(h.wallRow) == PutU16(h.wallRow)
    ensures ClientPutU16(|h.name|) + h.name == PutString(h.name)
    ensures ClientPutU16(|h.id|) + h.id == PutString(h.id)
  {
    hide ClientPutU32, ClientPutU16, PutU32, PutU16;
    ClientU32(h.version); ClientU32(h.width); ClientU32(h.height); ClientU32(h.density);
    ClientU32(h.fps); ClientU32(h.bitrate);
    ClientU16(h.wallCol); ClientU16(h.wallRow); ClientU16(|h.name|); ClientU16(|h.id|);
  }

  /** The Android encoder writes the host's bytes for every version a signed Int can hold as
      such, and for no other. */
  lemma KotlinMatchesHost(h: Hello)
    ensures KotlinEncodeHello(h) == EncodeHello(h) <==> h.version < 0x8000_0000
  {
    hide ClientPutU32, ClientPutU16, PutU32, PutU16;
    ClientPieces(h);
    if h.version >= 0x8000_0000 {
      assert |KotlinEncodeHello(h)| < |EncodeHello(h)|;
    }
  }

  /** The browser's does from version 5 on, and for no earlier version. */
  lemma WebMatchesHost(h: Hello)
    ensures WebEncodeHello(h) == EncodeHello(h) <==> h.version >= 5
  {
    hide ClientPutU32, ClientPutU16, PutU32, PutU16;
    ClientPieces(h);
    if h.version < 5 {
      assert |WebEncodeHello(h)| > |EncodeHello(h)|;
    }
  }

  const HELLO_V4: Hello := Hello(4, 1280, 720, 160, 60, 1, 0, 0, 0, 0, [0x54], [0x49])

  /** A version 4 HELLO from the browser: the host takes the bitrate for the two lengths and
      reads neither name nor id. */
  lemma WebHelloV4()
    ensures WebEncodeHello(HELLO_V4) != EncodeHello(HELLO_V4)
    ensures DecodeHello(WebEncodeHello(HELLO_V4)) == Some(HELLO_V4.(name := [], id := []))
  {
    hide ClientPutU32, ClientPutU16, PutU32, GetU32, PutU16, GetU16, Fixed, DecodeName;
    var h := HELLO_V4;
    var tail := PutU32(0) + PutString(h.name) + PutString(h.id);
    WebMatchesHost(h);
    WebParts(h);
    FixedBack(h, Extra4(h) + tail);
    U32RoundTrip(60, [1, 0] + tail);
    assert Extra4(h) + tail == PutU32(60) + ([1, 0] + tail);
    ZeroWord();
    EmptyStrings(h.(name := [], id := []), tail);
  }

  lemma WebParts(h: Hello)
    requires h.version < 6
    ensures WebEncodeHello(h) == Fixed(h) + (Extra4(h) + (PutU32(h.bitrate) + PutString(h.name) + PutString(h.id)))
  {
    hide ClientPutU32, ClientPutU16, PutU32, PutString;
    ClientPieces(h);
    assert LowByte(h.audio) == h.audio && LowByte(h.orientation) == h.orientation;
  }

  lemma ZeroWord()
    ensures PutU32(0) == [0, 0, 0, 0]
  {
  }

  lemma EmptyStrings(h: Hello, b: seq<byte>)
    requires |b| >= 4 && b[..4] == [0, 0, 0, 0] && h.name == h.id == []
    ensures DecodeName(h, b) == h
  {
    assert b[0] == b[..4][0] && b[1] == b[..4][1] && b[2] == b[..4][2] && b[3] == b[..4][3];
  }

  /** A version that is negative as a signed Int: the Android encoder stops after the fixed words
      and the strings, the host does not. */
  lemma KotlinHelloNegative()
    ensures var h := HELLO_V4.(version := 0x8000_0000); KotlinEncodeHello(h) != EncodeHello(h)
  {
    KotlinMatchesHost(HELLO_V4.(version := 0x8000_0000));
  }
}

/** WebSocket frames (RFC 6455 section 5.2, masking section 5.3) and the frame reader of
    host/src/ws_channel.cpp as a function of the TLS byte stream.

    The stream is a fixed byte string cut into TLS records. SSL_read never returns bytes
    from more than one record, so a read of a header field that straddles a cut comes up
    short; the reader treats that as failure. */
module WsFrames {
  import opened Bytes

  const MAX_FRAME: nat := 16 * 1024 * 1024

  // ----- Masking -----------------------------------------------------------

  function BitXor(a: nat, b: nat): (d: nat)
    ensures d < 2
  {
    if a % 2 == b % 2 then 0 else 1
  }

  /** Bitwise exclusive or, low bit first. */
  function XorBits(a: nat, b: nat): nat {
    if a == 0 && b == 0 then 0 else BitXor(a, b) + 2 * XorBits(a / 2, b / 2)
  }

  function Pow2(k: nat): (p: nat)
    ensures p > 0
  {
    if k == 0 then 1 else 2 * Pow2(k - 1)
  }

  lemma {:induction false} XorFits(a: nat, b: nat, k: nat)
    requires a < Pow2(k) && b < Pow2(k)
    ensures XorBits(a, b) < Pow2(k)
  {
    if k > 0 && (a != 0 || b != 0) {
      XorFits(a / 2, b / 2, k - 1);
    }
  }

  lemma Halves(d: nat, q: nat)
    requires d < 2
    ensures (d + 2 * q) / 2 == q && (d + 2 * q) % 2 == d
  {
  }

  lemma {:induction false} XorTwice(a: nat, b: nat)
    ensures XorBits(XorBits(a, b), b) == a
  {
    if a != 0 || b != 0 {
      var d, q := BitXor(a, b), XorBits(a / 2, b / 2);
      XorTwice(a / 2, b / 2);
      Halves(d, q);
      assert BitXor(d + 2 * q, b) == a % 2;
      if a == 0 {
        assert XorBits(q, b / 2) == 0;
      }
    }
  }

  function Bit(x: nat, k: nat): nat {
    x / Pow2(k) % 2
  }

  /** It is exclusive or: every bit is the sum of the two bits, without carry. */
  lemma {:induction false} XorIsBitwise(a: nat, b: nat, k: nat)
    ensures Bit(XorBits(a, b), k) == (Bit(a, k) + Bit(b, k)) % 2
  {
    var d, q := BitXor(a, b), XorBits(a / 2, b / 2);
    Halves(d, q);
    if k == 0 {
      assert Pow2(0) == 1;
    } else {
      HalfBit(a, k);
      HalfBit(b, k);
      HalfBit(XorBits(a, b), k);
      if a != 0 || b != 0 {
        XorIsBitwise(a / 2, b / 2, k - 1);
      } else {
        assert Bit(0, k) == 0;
      }
    }
  }

  lemma HalfBit(x: nat, k: nat)
    requires k > 0
    ensures Bit(x, k) == Bit(x / 2, k - 1)
  {
    DivTwice(x, Pow2(k - 1));
  }

  lemma DivTwice(x: nat, p: nat)
    requires p > 0
    ensures x / (2 * p) == x / 2 / p
  {
    var h := x / 2;
    var q, r := h / p, h % p;
    assert h == q * p + r;
    assert x == 2 * p * q + (2 * r + x % 2);
    QuotientIs(x, 2 * p, q, 2 * r + x % 2);
  }

  lemma QuotientIs(x: nat, d: nat, q: nat, r: nat)
    requires d > 0 && x == d * q + r && r < d
    ensures x / d == q
  {
    var e := x / d - q;
    assert x == d * (x / d) + x % d;
    assert e * d == r - x % d;
  }

  function Xor(a: byte, b: byte): byte {
    assert Pow2(8) == 0x100 by { assert Pow2(4) == 0x10; }
    XorFits(a, b, 8);
    XorBits(a, b)
  }

  function Mask(payload: seq<byte>, key: seq<byte>): (r: seq<byte>)
    requires |key| == 4
    ensures |r| == |payload|
  {
    seq(|payload|, i requires 0 <= i < |payload| => Xor(payload[i], key[i % 4]))
  }

  lemma MaskTwice(payload: seq<byte>, key: seq<byte>)
    requires |key| == 4
    ensures Mask(Mask(payload, key), key) == payload
  {
    forall i | 0 <= i < |payload|
      ensures Mask(Mask(payload, key), key)[i] == payload[i]
    {
      XorTwice(payload[i], key[i % 4]);
    }
  }

  /** Masking as RFC 6455 section 5.3 has it: bit k of byte i is combined with bit k of key byte
      i modulo 4. */
  lemma MaskIsBitwise(payload: seq<byte>, key: seq<byte>, i: nat, k: nat)
    requires |key| == 4 && i < |payload|
    ensures Bit(Mask(payload, key)[i], k) == (Bit(payload[i], k) + Bit(key[i % 4], k)) % 2
  {
    XorIsBitwise(payload[i], key[i % 4], k);
  }

  /** The type byte of a pairing message masked with 37 FA 21 3D is 23 on the wire. */
  lemma PairUnmasked()
    ensures Xor(0x23, 0x37) == 0x14
  {
    assert XorBits(1, 1) == 0;
    assert XorBits(2, 3) == 1;
    assert XorBits(4, 6) == 2;
    assert XorBits(8, 13) == 5;
    assert XorBits(17, 27) == 10;
  }

  // ----- The wire form of a frame ------------------------------------------

  type opcode = x: int | 0 <= x < 16

  datatype FrameFields = Frame(fin: bool, op: opcode, key: Option<seq<byte>>, payload: seq<byte>)

  /** Frames this channel exchanges: a masking key is four bytes, payloads are capped. */
  type WsFrame = f: FrameFields | (f.key.Some? ==> |f.key.value| == 4) && |f.payload| <= MAX_FRAME
    witness Frame(true, 2, None, [])

  function ShortLength(n: nat): byte {
    if n < 126 then n else if n <= 0xffff then 126 else 127
  }

  function LongLength(n: nat): (s: seq<byte>)
    requires n <= MAX_FRAME
    ensures |s| == ExtraLength(ShortLength(n))
  {
    if n < 126 then [] else if n <= 0xffff then PutU16(n) else PutU64(n)
  }

  /** How many more length bytes a 7-bit length announces. */
  function ExtraLength(short: byte): nat {
    if short == 126 then 2 else if short == 127 then 8 else 0
  }

  function FirstByte(f: WsFrame): byte {
    (if f.fin then 0x80 else 0) + f.op
  }

  function SecondByte(f: WsFrame): byte {
    (if f.key.Some? then 0x80 else 0) + ShortLength(|f.payload|)
  }

  function KeyBytes(f: WsFrame): seq<byte> {
    if f.key.Some? then f.key.value else []
  }

  function WireBody(f: WsFrame): seq<byte>
  {
    if f.key.Some? then Mask(f.payload, f.key.value) else f.payload
  }

  function Serialize(f: WsFrame): seq<byte>
  {
    [FirstByte(f), SecondByte(f)] + LongLength(|f.payload|) + KeyBytes(f) + WireBody(f)
  }

  // ----- Reading the TLS stream --------------------------------------------

  /** What one SSL_read of n bytes yields: it stops at the end of a record. */
  function ReadCount(data: seq<byte>, cuts: set<nat>, at: nat, n: nat): (r: nat)
    requires at <= |data|
    ensures r <= n && at + r <= |data|
    ensures r == n <==> Whole(data, cuts, at, n)
    ensures n > 0 && at < |data| ==> r > 0
    decreases n
  {
    if n == 0 || at == |data| then 0
    else if at + 1 in cuts then 1
    else 1 + ReadCount(data, cuts, at + 1, n - 1)
  }

  /** The n bytes at this position exist and lie in one record. */
  ghost predicate Whole(data: seq<byte>, cuts: set<nat>, at: nat, n: nat) {
    at + n <= |data| && forall c :: c in cuts ==> !(at < c < at + n)
  }

  /** What reading one frame comes to; `at` is where the stream stands afterwards. */
  datatype Outcome =
    | Dead(at: nat)                        // short read, over the cap, or a fragment
    | Closed(at: nat)                      // close frame
    | Quiet(at: nat, reply: seq<byte>)     // nothing for the application; maybe a pong
    | App(at: nat, payload: seq<byte>)     // one application payload, never empty

  function Pong(payload: seq<byte>): seq<byte> {
    if |payload| < 126 then [0x8a, |payload|] + payload else []
  }

  function Dispatch(fin: bool, op: opcode, payload: seq<byte>, at: nat): (r: Outcome)
    ensures r.at == at
  {
    if op == 8 then Closed(at)
    else if op == 9 then Quiet(at, Pong(payload))
    else if op != 2 && op != 0 then Quiet(at, [])
    else if !fin then Dead(at)
    else if payload == [] then Quiet(at, [])
    else App(at, payload)
  }

  function ReadStep(data: seq<byte>, cuts: set<nat>, at: nat): (r: Outcome)
    requires at <= |data|
    ensures at <= r.at <= |data|
    ensures !r.Dead? ==> r.at >= at + 2
    ensures r.App? ==> 0 < |r.payload| <= MAX_FRAME
  {
    var n := ReadCount(data, cuts, at, 2);
    if n != 2 then Dead(at + n)
    else ReadLength(data, cuts, at + 2, data[at], data[at + 1])
  }

  function ReadLength(data: seq<byte>, cuts: set<nat>, at: nat, b0: byte, b1: byte): (r: Outcome)
    requires at <= |data|
    ensures at <= r.at <= |data|
    ensures r.App? ==> 0 < |r.payload| <= MAX_FRAME
  {
    var short: byte := b1 % 0x80;
    var extra := ExtraLength(short);
    var n := ReadCount(data, cuts, at, extra);
    if n != extra then Dead(at + n)
    else
      var plen: nat := if extra == 2 then GetU16(data[at..at + 2])
                       else if extra == 8 then GetU64(data[at..at + 8]) else short;
      ReadBody(data, cuts, at + extra, b0, b1, plen)
  }

  function ReadBody(data: seq<byte>, cuts: set<nat>, at: nat, b0: byte, b1: byte, plen: nat): (r: Outcome)
    requires at <= |data|
    ensures at <= r.at <= |data|
    ensures r.App? ==> 0 < |r.payload| <= MAX_FRAME
  {
    if plen > MAX_FRAME then Dead(at)
    else if b1 < 0x80 then
      if at + plen > |data| then Dead(|data|)
      else Dispatch(b0 >= 0x80, b0 % 0x10, data[at..at + plen], at + plen)
    else
      var n := ReadCount(data, cuts, at, 4);
      if n != 4 then Dead(at + n)
      else if at + 4 + plen > |data| then Dead(|data|)
      else Dispatch(b0 >= 0x80, b0 % 0x10, Mask(data[at + 4..at + 4 + plen], data[at..at + 4]), at + 4 + plen)
  }

  lemma ReplyIsPong(data: seq<byte>, cuts: set<nat>, at: nat)
    requires at <= |data|
    ensures var o := ReadStep(data, cuts, at);
            o.Quiet? && o.reply != [] ==> o.reply[0] == 0x8a
  {
    hide Mask, ReadCount;
  }

  // ----- Reading back what was serialized ----------------------------------

  /** No header field of the frame at this position straddles a TLS record. */
  ghost predicate HeaderWhole(data: seq<byte>, cuts: set<nat>, at: nat, f: WsFrame)
  {
    var extra := |LongLength(|f.payload|)|;
    && Whole(data, cuts, at, 2)
    && Whole(data, cuts, at + 2, extra)
    && Whole(data, cuts, at + 2 + extra, |KeyBytes(f)|)
  }

  ghost predicate FrameAt(data: seq<byte>, at: nat, f: WsFrame)
  {
    at + |Serialize(f)| <= |data| && data[at..at + |Serialize(f)|] == Serialize(f)
  }

  lemma SubSlice(data: seq<byte>, at: nat, s: seq<byte>, i: nat, j: nat)
    requires at + |s| <= |data| && data[at..at + |s|] == s && i <= j <= |s|
    ensures data[at + i..at + j] == s[i..j]
  {
    forall k | i <= k < j
      ensures data[at + k] == s[k]
    {
      assert data[at..at + |s|][k] == data[at + k];
    }
  }

  /** Four consecutive parts of a stretch of the stream, each found at its own place. */
  lemma Locate(data: seq<byte>, at: nat, a: seq<byte>, b: seq<byte>, c: seq<byte>, d: seq<byte>)
    requires at + |a + b + c + d| <= |data| && data[at..at + |a + b + c + d|] == a + b + c + d
    ensures data[at..at + |a|] == a
    ensures data[at + |a|..at + |a| + |b|] == b
    ensures data[at + |a| + |b|..at + |a| + |b| + |c|] == c
    ensures data[at + |a| + |b| + |c|..at + |a| + |b| + |c| + |d|] == d
  {
    var s := a + b + c + d;
    assert s[0..|a|] == a;
    assert s[|a|..|a| + |b|] == b;
    assert s[|a| + |b|..|a| + |b| + |c|] == c;
    assert s[|a| + |b| + |c|..|s|] == d;
    SubSlice(data, at, s, 0, |a|);
    SubSlice(data, at, s, |a|, |a| + |b|);
    SubSlice(data, at, s, |a| + |b|, |a| + |b| + |c|);
    SubSlice(data, at, s, |a| + |b| + |c|, |s|);
  }

  lemma LengthBack(n: nat)
    requires n <= MAX_FRAME
    ensures var long := LongLength(n);
            (if |long| == 2 then GetU16(long) else if |long| == 8 then GetU64(long) else ShortLength(n) as int) == n
  {
    if n > 0xffff {
      U64RoundTrip(n, []);
      assert PutU64(n) + [] == PutU64(n);
    }
  }

  lemma StartBack(data: seq<byte>, cuts: set<nat>, at: nat, b0: byte, b1: byte)
    requires at + 2 <= |data| && data[at..at + 2] == [b0, b1]
    ensures var r := ReadStep(data, cuts, at);
            if Whole(data, cuts, at, 2) then r == ReadLength(data, cuts, at + 2, b0, b1)
            else r.Dead? && r.at < at + 2
  {
    assert data[at..at + 2][0] == data[at] && data[at..at + 2][1] == data[at + 1];
  }

  lemma LengthReadBack(data: seq<byte>, cuts: set<nat>, at: nat, b0: byte, b1: byte, n: nat)
    requires n <= MAX_FRAME && b1 % 0x80 == ShortLength(n)
    requires at + |LongLength(n)| <= |data| && data[at..at + |LongLength(n)|] == LongLength(n)
    ensures var r := ReadLength(data, cuts, at, b0, b1); var extra := |LongLength(n)|;
            if Whole(data, cuts, at, extra) then r == ReadBody(data, cuts, at + extra, b0, b1, n)
            else r.Dead? && r.at < at + extra
  {
    LengthBack(n);
  }

  lemma BodyBack(data: seq<byte>, cuts: set<nat>, at: nat, f: WsFrame)
    requires at + |KeyBytes(f)| + |f.payload| <= |data|
    requires data[at..at + |KeyBytes(f)|] == KeyBytes(f)
    requires data[at + |KeyBytes(f)|..at + |KeyBytes(f)| + |f.payload|] == WireBody(f)
    ensures var r := ReadBody(data, cuts, at, FirstByte(f), SecondByte(f), |f.payload|);
            if Whole(data, cuts, at, |KeyBytes(f)|)
            then r == Dispatch(f.fin, f.op, f.payload, at + |KeyBytes(f)| + |f.payload|)
            else r.Dead? && r.at < at + |KeyBytes(f)|
  {
    if f.key.Some? {
      MaskTwice(f.payload, f.key.value);
    }
  }

  /** The reader recovers a frame exactly when no header field is split between records;
      otherwise the read fails, in the middle of the frame. */
  lemma ReadBack(data: seq<byte>, cuts: set<nat>, at: nat, f: WsFrame)
    requires FrameAt(data, at, f)
    ensures HeaderWhole(data, cuts, at, f) ==>
            ReadStep(data, cuts, at) == Dispatch(f.fin, f.op, f.payload, at + |Serialize(f)|)
    ensures !HeaderWhole(data, cuts, at, f) ==>
            ReadStep(data, cuts, at).Dead? && ReadStep(data, cuts, at).at < at + |Serialize(f)|
  {
    hide ReadStep, ReadLength, ReadBody, Dispatch, LongLength, Mask, Whole;
    var n := |f.payload|;
    var start, long := [FirstByte(f), SecondByte(f)], LongLength(n);
    Locate(data, at, start, long, KeyBytes(f), WireBody(f));
    StartBack(data, cuts, at, FirstByte(f), SecondByte(f));
    LengthReadBack(data, cuts, at + 2, FirstByte(f), SecondByte(f), n);
    BodyBack(data, cuts, at + 2 + |long|, f);
    assert at + |Serialize(f)| == at + 2 + |long| + |KeyBytes(f)| + n;
  }

  /** RFC 6455 section 5.2 asks for the minimal length form: no header announcing the same
      payload length is shorter than the one written. */
  lemma LengthIsMinimal(data: seq<byte>, short: byte, n: nat)
    requires n <= MAX_FRAME && short < 0x80 && ExtraLength(short) == |data|
    requires n == if |data| == 2 then GetU16(data) else if |data| == 8 then GetU64(data) else short
    ensures |LongLength(n)| <= |data|
  {
  }
}

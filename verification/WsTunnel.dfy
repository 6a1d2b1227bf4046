/** The channel end to end: messages cut into arbitrary chunks for send_all come back from
    recv as the same byte stream, whatever the receive sizes. */
module WsTunnel {
  import opened Bytes
  import opened Framing
  import opened WsFrames
  import opened WsStream
  import opened WsChannels

  // ----- Sending -----------------------------------------------------------

  lemma {:induction false} BadStaysBad(a: seq<byte>, b: seq<byte>)
    requires SplitAll(a).bad
    ensures SplitAll(a + b).bad
    decreases |a|
  {
    hide FirstCut;
    CutAppend(a, b);
    if FirstCut(a).Cut? {
      var size := FirstCut(a).size;
      BadStaysBad(a[size..], b);
      assert (a + b)[size..] == a[size..] + b;
    }
  }

  /** Cutting one more chunk: the payloads grow towards those of the whole stream. */
  lemma NextChunk(before: seq<byte>, chunk: seq<byte>, later: seq<byte>)
    requires !SplitAll((before + chunk) + later).bad
    ensures var p := SplitAll(before); var q := SplitAll(p.rest + chunk);
            && !p.bad && !q.bad
            && SplitAll(before + chunk) == Split(p.payloads + q.payloads, q.rest, false)
            && p.payloads + q.payloads <= SplitAll((before + chunk) + later).payloads
  {
    hide SplitAll;
    if SplitAll(before + chunk).bad { BadStaysBad(before + chunk, later); }
    if SplitAll(before).bad { BadStaysBad(before, chunk); }
    SplitAppend(before, chunk);
    SplitAppend(before + chunk, later);
  }

  lemma FitsSoFar(before: seq<seq<byte>>, some: seq<seq<byte>>, all: seq<seq<byte>>)
    requires some <= all && forall p :: p in all ==> |p| <= MAX_FRAME
    ensures forall p :: p in some ==> |p| <= MAX_FRAME
    ensures |Concat(before + Wire(some))| <= |Concat(before + Wire(all))|
  {
    assert all == some + all[|some|..];
    SentPrefix(before, some, all[|some|..]);
  }

  /** Sending one more chunk, when the whole stream splits into `all` and fits the link. */
  lemma ChunkStep(capacity: nat, sent: seq<seq<byte>>, chunks: seq<seq<byte>>, i: nat, all: seq<seq<byte>>)
    requires i < |chunks| && SplitAll(Concat(chunks)) == Split(all, [], false)
    requires |Concat(sent + Wire(all))| <= capacity
    ensures var p := SplitAll(Concat(chunks[..i])); var q := SplitAll(p.rest + chunks[i]);
            && SplitAll(Concat(chunks[..i + 1])) == Split(p.payloads + q.payloads, q.rest, false)
            && !q.bad && (forall x <- p.payloads + q.payloads :: |x| <= MAX_FRAME)
            && sent + Wire(p.payloads + q.payloads) == sent + Wire(p.payloads) + Wire(q.payloads)
            && |Concat(sent + Wire(p.payloads + q.payloads))| <= capacity
  {
    hide SplitAll, Wire;
    var before, later := Concat(chunks[..i]), Concat(chunks[i + 1..]);
    ConcatSnoc(chunks[..i], chunks[i]);
    assert chunks[..i + 1] == chunks[..i] + [chunks[i]];
    ConcatAppend(chunks[..i + 1], chunks[i + 1..]);
    assert chunks[..i + 1] + chunks[i + 1..] == chunks;
    hide Concat;
    NextChunk(before, chunks[i], later);
    var p := SplitAll(before);
    var q := SplitAll(p.rest + chunks[i]);
    FitsSoFar(sent, p.payloads + q.payloads, all);
    WireAppend(p.payloads, q.payloads);
    Assoc(sent, Wire(p.payloads), Wire(q.payloads));
  }

  /** Every message goes out as one binary frame, in order and whole, however the encoded
      stream is chopped into send_all calls. */
  method SendInChunks(ch: WsChannel, ms: seq<Message>, chunks: seq<seq<byte>>) returns (ok: bool)
    requires ch.Valid() && !ch.closed && ch.outAcc == []
    requires forall m :: m in ms ==> |m.body| < MAX_FRAME
    requires Concat(chunks) == EncodeAll(ms)
    requires |Concat(ch.sent + Wire(Payloads(ms)))| <= ch.capacity
    modifies ch
    ensures ok && ch.Valid() && !ch.closed && ch.outAcc == []
    ensures ch.sent == old(ch.sent) + Wire(Payloads(ms))
  {
    hide SplitAll, Wire, EncodeAll, Serialize, Clip, Prefixed, Payloads;
    ghost var all := Payloads(ms);
    SplitEncoded(ms, []);
    assert EncodeAll(ms) + [] == EncodeAll(ms);
    ok := true;
    Nothing(ch.sent);
    for i := 0 to |chunks|
      invariant ch.Valid() && !ch.closed && ok
      invariant SplitAll(Concat(chunks[..i])).rest == ch.outAcc
      invariant ch.sent == old(ch.sent) + Wire(SplitAll(Concat(chunks[..i])).payloads)
    {
      ChunkStep(ch.capacity, old(ch.sent), chunks, i, all);
      ok := ch.SendAll(chunks[i]);
    }
    assert chunks[..|chunks|] == chunks;
  }

  lemma Nothing(before: seq<seq<byte>>)
    ensures SplitAll([]) == Split([], [], false)
    ensures before + Wire([]) == before
  {
  }

  // ----- Receiving ---------------------------------------------------------

  /** Any sequence of waits and reads of any sizes delivers the incoming stream from its
      start, and leaves exactly the rest of it: no byte is lost or delivered twice. As long as
      something is left, every turn delivers a byte or reads on past control frames. */
  method ReceiveSome(ch: WsChannel, sizes: seq<nat>) returns (got: seq<byte>)
    requires ch.Valid() && ch.InStep() && forall i :: 0 <= i < |sizes| ==> sizes[i] > 0
    modifies ch
    ensures ch.Valid() && ch.InStep()
    ensures old(ch.Incoming()) == got + ch.Incoming()
    ensures old(ch.closed) || ch.Incoming() == [] || |got| + (ch.at - old(ch.at)) >= |sizes|
  {
    hide Clean, Tunnel, Clip, HoldsOneFrame, DataFrames, ReadStep, WaitOutcome, Pull, Prefixed;
    got := [];
    EndIsDead(ch.data, ch.cuts);
    for i := 0 to |sizes|
      invariant ch.Valid() && ch.InStep() && ch.at >= old(ch.at)
      invariant old(ch.Incoming()) == got + ch.Incoming()
      invariant ch.closed && !old(ch.closed) ==> ch.Incoming() == []
      invariant old(ch.closed) || ch.Incoming() == [] || |got| + (ch.at - old(ch.at)) >= i
    {
      WaitCarries(ch.data, ch.cuts, ch.at, true);
      var ready := ch.WaitReadable(true);
      if ready {
        var r := ch.Recv(sizes[i]);
        if r.Some? {
          Assoc(got, r.value, ch.Incoming());
          got := got + r.value;
        }
      }
    }
  }

  /** Waiting and reading until the stream ends or is closed delivers all of it, whatever the
      sizes asked for and however many control frames and wake-ups there are. */
  method ReceiveAll(ch: WsChannel, size: nat -> nat) returns (got: seq<byte>)
    requires ch.Valid() && ch.InStep() && !ch.closed && forall i :: size(i) > 0
    modifies ch
    ensures ch.Valid() && ch.InStep() && ch.Incoming() == []
    ensures got == old(ch.Incoming())
  {
    hide Clean, Tunnel, Clip, HoldsOneFrame, DataFrames, Pull, PullOpen, WaitOutcome, Concat, Prefixed;
    got := [];
    var turn: nat := 0;
    EndIsDead(ch.data, ch.cuts);
    assert [] + ch.Incoming() == ch.Incoming();
    while !ch.closed && (ch.at < |ch.data| || ch.inbuf != [])
      invariant ch.Valid() && ch.InStep() && (ch.closed ==> ch.inbuf == [])
      invariant old(ch.Incoming()) == got + ch.Incoming()
      decreases |ch.data| - ch.at, |ch.inbuf| - ch.inpos
    {
      WaitCarries(ch.data, ch.cuts, ch.at, true);
      var ready := ch.WaitReadable(true);
      if ready {
        var r := ch.Recv(size(turn));
        Assoc(got, r.value, ch.Incoming());
        got := got + r.value;
      }
      turn := turn + 1;
    }
    assert ch.inbuf[ch.inpos..] == [];
    assert got + [] == got;
  }

  // ----- The two together --------------------------------------------------

  lemma {:induction false} OwnFrames(ms: seq<Message>)
    requires forall m :: m in ms ==> |m.body| < MAX_FRAME
    ensures SerializeAll(BinaryFrames(Payloads(ms))) == Concat(Wire(Payloads(ms)))
    ensures Carried(BinaryFrames(Payloads(ms))) == ms
  {
    hide Serialize;
    var ps := Payloads(ms);
    if ms != [] {
      OwnFrames(ms[1..]);
      var rest := Payloads(ms[1..]);
      assert ps[1..] == rest;
      assert BinaryFrames(ps)[1..] == BinaryFrames(rest);
      assert Wire(ps)[1..] == Wire(rest);
      assert ps[0][1..] == ms[0].body;
    }
  }

  /** What the channel writes for a list of messages reads back, at a peer running the same
      frame reader, as their encoding, and the message parser recovers the list, exactly when the
      division into TLS records splits no frame header. */
  lemma TunnelIsIdentity(ms: seq<Message>, cuts: set<nat>)
    requires forall m :: m in ms ==> |m.body| < MAX_FRAME
    ensures var wire := Concat(Wire(Payloads(ms)));
            var whole := AllWhole(wire, cuts, 0, BinaryFrames(Payloads(ms)));
            && (Tunnel(wire, cuts, 0) == EncodeAll(ms) <==> whole)
            && (Clean(wire, cuts, 0) <==> whole)
            && (whole ==> Parse(Tunnel(wire, cuts, 0)) == Parsed(ms, []))
  {
    hide Serialize, SerializeAll, Wire, Carried, Clean, Tunnel, EncodeAll, Parse, HeaderWhole, AllWhole;
    OwnFrames(ms);
    var wire := Concat(Wire(Payloads(ms)));
    assert wire[0..] == wire;
    OwnFramesCarry(ms);
    TunnelExactly(wire, cuts, 0, BinaryFrames(Payloads(ms)));
    ParseEncoded(ms);
  }

  lemma OwnFramesCarry(ms: seq<Message>)
    requires forall m :: m in ms ==> |m.body| < MAX_FRAME
    ensures forall f <- BinaryFrames(Payloads(ms)) :: Ordinary(f) && CarriesApp(f)
  {
  }

  /** A frame whose header is split is lost, and everything after it. */
  lemma TunnelExactly(data: seq<byte>, cuts: set<nat>, at: nat, fs: seq<WsFrame>)
    requires forall f <- fs :: Ordinary(f) && CarriesApp(f)
    requires at <= |data| && data[at..] == SerializeAll(fs)
    ensures Tunnel(data, cuts, at) == EncodeAll(Carried(fs)) <==> AllWhole(data, cuts, at, fs)
    ensures Clean(data, cuts, at) <==> AllWhole(data, cuts, at, fs)
  {
    hide Tunnel, Clean, EncodeAll, Carried, SerializeAll, AllWhole;
    TunnelOfFrames(data, cuts, at, fs);
    if !AllWhole(data, cuts, at, fs) {
      SplitLoses(data, cuts, at, fs);
    }
  }

  lemma {:induction false} SplitLoses(data: seq<byte>, cuts: set<nat>, at: nat, fs: seq<WsFrame>)
    requires forall f <- fs :: Ordinary(f) && CarriesApp(f)
    requires at <= |data| && data[at..] == SerializeAll(fs) && !AllWhole(data, cuts, at, fs)
    ensures |Tunnel(data, cuts, at)| < |EncodeAll(Carried(fs))|
    decreases |fs|
  {
    hide ReadStep, Serialize, EncodeMessage, HeaderWhole;
    var f, rest := fs[0], fs[1..];
    assert f in fs;
    FirstFrameAt(data, at, f, SerializeAll(rest));
    ReadBack(data, cuts, at, f);
    EncodeAllCons(Message(f.payload[0], f.payload[1..]), Carried(rest));
    PrefixedIsEncoded(f.payload);
    EncodedLong(Message(f.payload[0], f.payload[1..]));
    if HeaderWhole(data, cuts, at, f) {
      OneFrame(data, cuts, at, f, SerializeAll(rest));
      SplitLoses(data, cuts, at + |Serialize(f)|, rest);
    }
  }

  lemma ParseEncoded(ms: seq<Message>)
    requires forall m :: m in ms ==> |m.body| < MAX_MESSAGE
    ensures Parse(EncodeAll(ms)) == Parsed(ms, [])
  {
    StreamRoundTrip(ms, []);
    assert EncodeAll(ms) + [] == EncodeAll(ms);
    assert ms + [] == ms;
  }

  /** One message whose two header bytes lie in different records: it is lost, and so is what
      follows. */
  lemma SplitHeader(m: Message, rest: seq<Message>)
    requires forall x :: x in [m] + rest ==> |x.body| < MAX_FRAME
    ensures var wire := Concat(Wire(Payloads([m] + rest)));
            ReadStep(wire, {1}, 0) == Dead(1) && Tunnel(wire, {1}, 0) == [] != EncodeAll([m] + rest)
  {
    hide Serialize, EncodeMessage;
    var ms := [m] + rest;
    var fs, wire := BinaryFrames(Payloads(ms)), Concat(Wire(Payloads(ms)));
    OwnFrames(ms);
    OwnFramesCarry(ms);
    assert wire[0..] == wire;
    FirstFrameAt(wire, 0, fs[0], SerializeAll(fs[1..]));
    OneByte(wire);
    assert ms[0] == m;
    assert |EncodeMessage(m)| >= 5 by { EncodedLong(m); }
  }

  lemma OneByte(data: seq<byte>)
    requires |data| >= 2
    ensures ReadStep(data, {1}, 0) == Dead(1)
  {
    assert ReadCount(data, {1}, 0, 2) == 1;
  }

  lemma EncodedLong(m: Message)
    ensures |EncodeMessage(m)| >= 5
  {
  }

  /** A message one byte too long for a frame: the channel refuses it. */
  lemma TooLongRefused(m: Message)
    requires |m.body| == 16777216
    ensures SplitAll(EncodeMessage(m)) == Split([], EncodeMessage(m), true)
  {
    hide PutU32, GetU32;
    U32RoundTrip(16777217, [m.kind] + m.body);
    Assoc(PutU32(16777217), [m.kind], m.body);
  }

  /** One byte less is sent; a length of zero is refused. */
  lemma LongestSent(m: Message)
    requires |m.body| == 16777215
    ensures SplitAll(EncodeMessage(m)) == Split([[m.kind] + m.body], [], false)
    ensures SplitAll([0, 0, 0, 0]) == Split([], [0, 0, 0, 0], true)
  {
    EncodedSplits(m, []);
    assert EncodeMessage(m) + [] == EncodeMessage(m);
    assert SplitAll([]) == Split([], [], false);
    assert [Payload(m)] + [] == [Payload(m)];
  }

  /** The reader refuses a frame that announces one byte over 16 MiB, right after its length. */
  lemma TooLongUnread(rest: seq<byte>)
    ensures ReadStep([0x82, 127, 0, 0, 0, 0, 1, 0, 0, 1] + rest, {}, 0) == Dead(10)
  {
    var data := [0x82, 127, 0, 0, 0, 0, 1, 0, 0, 1] + rest;
    assert data[2..10] == [0, 0, 0, 0, 1, 0, 0, 1];
    assert data[2..10][4..] == [1, 0, 0, 1];
  }

  // ----- On real channels --------------------------------------------------

  /** One host channel sends, one channel running the same reader receives, and a parser reads
      what it received: the messages are those sent, for every chunking of the sends, every
      division into records that splits no header, and all receive sizes. */
  method ThereAndBack(host: WsChannel, ms: seq<Message>, chunks: seq<seq<byte>>, cuts: set<nat>, size: nat -> nat)
    returns (delivered: seq<Message>)
    requires host.Valid() && !host.closed && host.outAcc == [] && host.sent == []
    requires forall m :: m in ms ==> |m.body| < MAX_FRAME
    requires Concat(chunks) == EncodeAll(ms)
    requires |Concat(Wire(Payloads(ms)))| <= host.capacity
    requires AllWhole(Concat(Wire(Payloads(ms))), cuts, 0, BinaryFrames(Payloads(ms)))
    requires forall i :: size(i) > 0
    modifies host
    ensures delivered == ms
  {
    hide Wire, EncodeAll, Serialize, Clip, Prefixed, Payloads, Clean, Tunnel, AllWhole, Parse;
    assert [] + Wire(Payloads(ms)) == Wire(Payloads(ms));
    var ok := SendInChunks(host, ms, chunks);
    Unclipped(Concat(Wire(Payloads(ms))), host.capacity);
    var peer := new WsChannel(host.wire, cuts, 0);
    TunnelIsIdentity(ms, cuts);
    delivered := ReadMessages(peer, size);
  }

  lemma Unclipped(s: seq<byte>, n: nat)
    requires |s| <= n
    ensures Clip(s, n) == s
  {
  }

  method ReadMessages(ch: WsChannel, size: nat -> nat) returns (delivered: seq<Message>)
    requires ch.Valid() && !ch.closed && ch.inbuf == [] && forall i :: size(i) > 0
    requires Clean(ch.data, ch.cuts, ch.at)
    modifies ch
    ensures delivered == Parse(Tunnel(ch.data, ch.cuts, old(ch.at))).msgs
  {
    hide Clean, Tunnel, Clip, Parse, Concat, Prefixed;
    assert [] + ch.OnWire() == ch.OnWire();
    var got := ReceiveAll(ch, size);
    var parser := new MessageParser();
    parser.Feed(got);
    assert [] + got == got;
    delivered := Drain(parser);
  }

  /** A client's frames, masked or not, with pings and pongs among them, sent over any records
      that split no header: the host reads exactly the messages they carry. */
  method FromClient(fs: seq<WsFrame>, cuts: set<nat>, capacity: nat, size: nat -> nat) returns (delivered: seq<Message>)
    requires forall f :: f in fs ==> Ordinary(f)
    requires AllWhole(SerializeAll(fs), cuts, 0, fs) && forall i :: size(i) > 0
    ensures delivered == Carried(fs)
  {
    hide Serialize, SerializeAll, Clean, Tunnel, AllWhole, Parse, EncodeAll, Carried;
    var data := SerializeAll(fs);
    assert data[0..] == data;
    TunnelOfFrames(data, cuts, 0, fs);
    CarriedFit(fs);
    ParseEncoded(Carried(fs));
    var ch := new WsChannel(data, cuts, capacity);
    delivered := ReadMessages(ch, size);
  }

  lemma {:induction false} CarriedFit(fs: seq<WsFrame>)
    ensures forall m :: m in Carried(fs) ==> |m.body| < MAX_FRAME
  {
    if fs != [] { CarriedFit(fs[1..]); }
  }

  // ----- At a browser ------------------------------------------------------

  /** The payloads a reader of the plain byte stream, without records, hands to its application. */
  function Payloaded(data: seq<byte>, at: nat): seq<seq<byte>>
    requires at <= |data|
    decreases |data| - at
  {
    match ReadStep(data, {}, at)
    case App(next, payload) => [payload] + Payloaded(data, next)
    case Quiet(next, _) => Payloaded(data, next)
    case _ => []
  }

  /** parseFrame of the browser client: a type byte and a body. */
  function ParseFrame(payload: seq<byte>): Option<Message> {
    if payload == [] then None else Some(Message(payload[0], payload[1..]))
  }

  /** A browser, which sees frames and not TLS records, gets one payload per message, and reads
      exactly that message from it. */
  lemma BrowserSees(ms: seq<Message>)
    requires forall m :: m in ms ==> |m.body| < MAX_FRAME
    ensures Payloaded(Concat(Wire(Payloads(ms))), 0) == Payloads(ms)
    ensures forall i :: 0 <= i < |ms| ==> ParseFrame(Payloads(ms)[i]) == Some(ms[i])
  {
    hide Serialize, SerializeAll, Wire, Carried;
    OwnFrames(ms);
    OwnFramesCarry(ms);
    var wire := Concat(Wire(Payloads(ms)));
    assert wire[0..] == wire;
    PayloadedFrames(wire, 0, BinaryFrames(Payloads(ms)));
  }

  lemma {:induction false} PayloadedFrames(data: seq<byte>, at: nat, fs: seq<WsFrame>)
    requires forall f <- fs :: Ordinary(f) && CarriesApp(f)
    requires at <= |data| && data[at..] == SerializeAll(fs)
    ensures |Payloaded(data, at)| == |fs|
    ensures forall i :: 0 <= i < |fs| ==> Payloaded(data, at)[i] == fs[i].payload
    decreases |fs|
  {
    hide ReadStep, Serialize;
    if fs == [] {
      EndIsDead(data, {});
      return;
    }
    var f := fs[0];
    assert f in fs;
    FirstFrameAt(data, at, f, SerializeAll(fs[1..]));
    NoCuts(data, at, f);
    OneFrame(data, {}, at, f, SerializeAll(fs[1..]));
    PayloadedFrames(data, at + |Serialize(f)|, fs[1..]);
  }

  lemma NoCuts(data: seq<byte>, at: nat, f: WsFrame)
    requires FrameAt(data, at, f)
    ensures HeaderWhole(data, {}, at, f)
  {
  }

  // ----- Frame by frame ----------------------------------------------------

  /** What reading a frame does, by its opcode: a close frame closes and delivers nothing; a ping
      of up to 125 bytes is answered by the pong with its bytes and a longer one is not; a
      fragment is refused; data is buffered behind its length; everything else does nothing. */
  method ReadOne(ch: WsChannel, f: WsFrame) returns (ok: bool)
    requires ch.Valid() && !ch.closed && ch.inbuf == [] && ch.inpos == 0
    requires FrameAt(ch.data, ch.at, f) && HeaderWhole(ch.data, ch.cuts, ch.at, f)
    modifies ch
    ensures ch.Valid() && ch.at == old(ch.at) + |Serialize(f)|
    ensures ch.closed == (f.op == 8)
    ensures ok == (f.op != 8 && (f.op == 0 || f.op == 2 ==> f.fin))
    ensures ch.inbuf == (if (f.op == 0 || f.op == 2) && f.fin && f.payload != [] then PutU32(|f.payload|) + f.payload else [])
    ensures ch.sent == old(ch.sent) +
              if f.op == 9 && |f.payload| <= 125 then [Serialize(Frame(true, 10, None, f.payload))] else []
  {
    hide ReadStep, HoldsOneFrame, Clip, Concat, Serialize, HeaderWhole, FrameAt;
    ReadBack(ch.data, ch.cuts, ch.at, f);
    if f.op == 9 && |f.payload| <= 125 { PongIsFrame(f.payload); }
    ok := ch.ReadFrame();
  }

  lemma PongIsFrame(payload: seq<byte>)
    requires |payload| <= 125
    ensures Pong(payload) == Serialize(Frame(true, 10, None, payload)) != []
    ensures Pong(payload) == [0x8a, |payload|] + payload
  {
    assert [] + payload == payload;
  }

  /** Nothing after a close frame is delivered: the stream brings what the frames before it
      carry, whatever follows it. */
  lemma {:induction false} CloseEnds(data: seq<byte>, cuts: set<nat>, at: nat, fs: seq<WsFrame>, f: WsFrame, rest: seq<byte>)
    requires (forall g :: g in fs ==> Ordinary(g)) && f.op == 8
    requires at <= |data| && data[at..] == SerializeAll(fs) + (Serialize(f) + rest)
    requires AllWhole(data, cuts, at, fs + [f])
    ensures Tunnel(data, cuts, at) == EncodeAll(Carried(fs)) && Clean(data, cuts, at)
    decreases |fs|
  {
    hide ReadStep, Serialize, EncodeMessage, HeaderWhole;
    if fs == [] {
      assert [] + (Serialize(f) + rest) == Serialize(f) + rest;
      FirstFrameAt(data, at, f, rest);
      ReadBack(data, cuts, at, f);
    } else {
      var g, later := fs[0], SerializeAll(fs[1..]) + (Serialize(f) + rest);
      Assoc(Serialize(g), SerializeAll(fs[1..]), Serialize(f) + rest);
      assert (fs + [f])[1..] == fs[1..] + [f];
      OneFrame(data, cuts, at, g, later);
      CloseEnds(data, cuts, at + |Serialize(g)|, fs[1..], f, rest);
      if CarriesApp(g) {
        PrefixedIsEncoded(g.payload);
        EncodeAllCons(Message(g.payload[0], g.payload[1..]), Carried(fs[1..]));
      } else {
        assert [] + Carried(fs[1..]) == Carried(fs[1..]);
      }
    }
  }

  /** On a real channel: the host reads what came before the close frame, and no more. */
  method UntilClose(fs: seq<WsFrame>, f: WsFrame, rest: seq<byte>, cuts: set<nat>, capacity: nat, size: nat -> nat)
    returns (delivered: seq<Message>)
    requires (forall g :: g in fs ==> Ordinary(g)) && f.op == 8 && forall i :: size(i) > 0
    requires AllWhole(SerializeAll(fs) + (Serialize(f) + rest), cuts, 0, fs + [f])
    ensures delivered == Carried(fs)
  {
    hide Serialize, SerializeAll, Clean, Tunnel, AllWhole, Parse, EncodeAll, Carried;
    var data := SerializeAll(fs) + (Serialize(f) + rest);
    assert data[0..] == data;
    CloseEnds(data, cuts, 0, fs, f, rest);
    CarriedFit(fs);
    ParseEncoded(Carried(fs));
    var ch := new WsChannel(data, cuts, capacity);
    delivered := ReadMessages(ch, size);
  }

  /** A masked frame on the wire, bit by bit (RFC 6455 sections 5.2 and 5.3): the flags and the
      opcode, the mask bit and the length, and after the key each byte combined with the key. */
  lemma MaskedOnWire(fin: bool, op: opcode, key: seq<byte>, payload: seq<byte>, i: nat, k: nat)
    requires |key| == 4 && i < |payload| <= 125
    ensures var wire := Serialize(Frame(fin, op, Some(key), payload));
            && |wire| == 6 + |payload| && wire[0] == (if fin then 128 else 0) + op && wire[1] == 128 + |payload|
            && wire[2..6] == key
            && Bit(wire[6 + i], k) == (Bit(payload[i], k) + Bit(key[i % 4], k)) % 2
  {
    hide Mask;
    var wire := Serialize(Frame(fin, op, Some(key), payload));
    MaskIsBitwise(payload, key, i, k);
    assert wire[6 + i] == Mask(payload, key)[i];
  }

  /** The longer forms of the length, network byte order. */
  lemma LongOnWire(payload: seq<byte>)
    requires 126 <= |payload| <= MAX_FRAME
    ensures var wire := Serialize(Frame(true, 2, None, payload)); var n := |payload|;
            && wire[0] == 0x82
            && wire[1..] == (if n <= 65535 then [126, n / 256, n % 256]
                             else [127, 0, 0, 0, 0, n / 16777216, n / 65536 % 256, n / 256 % 256, n % 256]) + payload
  {
  }

  /** Between records nothing is read without a wake-up; and a wake-up by a ping, a pong or any
      other frame without data, alone in its record, ends right behind that frame. */
  lemma RecordByRecord(data: seq<byte>, cuts: set<nat>, at: nat, f: WsFrame)
    requires at == |data| || (at < |data| && at in cuts)
    ensures WaitOutcome(data, cuts, at, false) == Quiet(at, [])
    ensures var end := at + |Serialize(f)|;
            FrameAt(data, at, f) && HeaderWhole(data, cuts, at, f) && Ordinary(f) && !CarriesApp(f)
            && (end == |data| || end in cuts) ==>
              WaitOutcome(data, cuts, at, true) == Quiet(end, [])
  {
    hide ReadStep, Serialize, HeaderWhole;
    if FrameAt(data, at, f) && HeaderWhole(data, cuts, at, f) && Ordinary(f) && !CarriesApp(f) {
      ReadBack(data, cuts, at, f);
      var end := at + |Serialize(f)|;
      assert end == |data| || end in cuts ==> PullOpen(data, cuts, end) == Quiet(end, []);
      assert ReadStep(data, cuts, at).Quiet? && ReadStep(data, cuts, at).at == end;
      assert PullOpen(data, cuts, at) == Quiet(at, []);
    }
  }
}

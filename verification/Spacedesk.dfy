/** The spacedesk viewer protocol, both sides: host/src/spacedesk_protocol.h, the stripe loop of
    host/src/spacedesk_server.cpp and ClientParser of host/src/spacedesk_client.cpp. */
module Spacedesk {
  import opened Bytes

  const HEADER_SIZE: nat := 128
  const MAX_PAYLOAD: u32 := 64 * 1024 * 1024
  const MSG_HEARTBEAT: u32 := 1
  const MSG_FRAME: u32 := 2
  const MSG_DISPLAY: u32 := 3
  const MSG_ACK: u32 := 4
  const STRIPES: nat := 4

  // ---- Stripes

  function StripeBounds(h: u32, i: nat): (u32, u32)
    requires i < STRIPES
  {
    var base := h / STRIPES;
    (base * i, if i == STRIPES - 1 then h else base * (i + 1))
  }

  predicate RowIn(h: u32, i: nat, row: nat)
    requires i < STRIPES
  {
    StripeBounds(h, i).0 <= row < StripeBounds(h, i).1
  }

  /** Every row of the screen is in exactly one stripe, no other row is in any. */
  lemma EachRowOnce(h: u32, row: nat)
    ensures row < h <==> exists i: nat | i < STRIPES :: RowIn(h, i, row)
    ensures forall i: nat, j: nat | i < STRIPES && j < STRIPES && RowIn(h, i, row) && RowIn(h, j, row) :: i == j
  {
    assert StripeBounds(h, 0) == (0, h / 4) && StripeBounds(h, 1) == (h / 4, h / 4 * 2);
    assert StripeBounds(h, 2) == (h / 4 * 2, h / 4 * 3) && StripeBounds(h, 3) == (h / 4 * 3, h);
    if row < h {
      if row < h / 4 { assert RowIn(h, 0, row); }
      else if row < h / 4 * 2 { assert RowIn(h, 1, row); }
      else if row < h / 4 * 3 { assert RowIn(h, 2, row); }
      else { assert RowIn(h, 3, row); }
    }
  }

  /** No stripe is empty exactly for screens of four rows and more. */
  lemma NoEmptyStripe(h: u32)
    ensures h >= STRIPES <==> forall i: nat | i < STRIPES :: StripeBounds(h, i).0 < StripeBounds(h, i).1
  {
    if h < STRIPES {
      assert StripeBounds(h, 0).0 == StripeBounds(h, 0).1;
    } else {
      assert StripeBounds(h, 3).0 < StripeBounds(h, 3).1;
    }
  }

  // ---- Headers

  function Words(ws: seq<u32>): (s: seq<byte>)
    ensures |s| == 4 * |ws|
  {
    if ws == [] then [] else Words(ws[..|ws| - 1]) + PutLe32(ws[|ws| - 1])
  }

  function Zeros(n: nat): (ws: seq<u32>)
    ensures |ws| == n && forall k :: 0 <= k < n ==> ws[k] == 0
  {
    seq(n, i => 0)
  }

  lemma {:induction false} WordAt(ws: seq<u32>, k: nat, tail: seq<byte>)
    requires k < |ws|
    ensures GetLe32((Words(ws) + tail)[4 * k..]) == ws[k]
  {
    hide PutLe32, GetLe32;
    var last := PutLe32(ws[|ws| - 1]);
    var front := Words(ws[..|ws| - 1]);
    Assoc(front, last, tail);
    if k < |ws| - 1 {
      WordAt(ws[..|ws| - 1], k, last + tail);
    } else {
      assert (Words(ws) + tail)[4 * k..] == last + tail;
      Le32RoundTrip(ws[k], tail);
    }
  }

  datatype Wire =
    | Control(kind: u32, f8: u32, f12: u32)
    | Frame(w: u32, h: u32, yStart: u32, yEnd: u32, jpeg: seq<byte>)

  predicate Sendable(x: Wire) {
    match x
    case Control(kind, _, _) => kind != MSG_FRAME
    case Frame(_, _, _, _, jpeg) => |jpeg| < 0x1_0000_0000
  }

  function FrameWords(w: u32, h: u32, yStart: u32, yEnd: u32, len: u32): (ws: seq<u32>)
    ensures |ws| == 32
  {
    [MSG_FRAME, len, w, h, w * 4 % 0x1_0000_0000, 21, 0, yStart, w, yEnd, 3, 2, 60, 3, 0, 4, 1, len] + Zeros(14)
  }

  function ControlWords(kind: u32, f8: u32, f12: u32): (ws: seq<u32>)
    ensures |ws| == 32
  {
    [kind, 0, f8, f12] + Zeros(28)
  }

  function Encode(x: Wire): seq<byte>
    requires Sendable(x)
  {
    match x
    case Control(kind, f8, f12) => Words(ControlWords(kind, f8, f12))
    case Frame(w, h, y0, y1, jpeg) => Words(FrameWords(w, h, y0, y1, |jpeg|)) + jpeg
  }

  function EncodeAll(xs: seq<Wire>): seq<byte>
    requires forall x <- xs :: Sendable(x)
  {
    if xs == [] then [] else Encode(xs[0]) + EncodeAll(xs[1..])
  }

  // ---- The client's parser

  datatype ServerMessage = ServerMessage(kind: u32, w: u32, h: u32, yStart: u32, yEnd: u32, jpeg: seq<byte>)

  datatype Step = Wait | Clear | Emit(m: ServerMessage, size: nat)

  function FirstStep(s: seq<byte>): (step: Step)
    ensures step.Emit? ==> 0 < step.size <= |s|
  {
    if |s| < HEADER_SIZE then Wait
    else
      var kind, len := GetLe32(s), GetLe32(s[4..]);
      if len > MAX_PAYLOAD then Clear
      else if |s| < HEADER_SIZE + len then Wait
      else if kind == MSG_FRAME then
        Emit(ServerMessage(kind, GetLe32(s[8..]), GetLe32(s[12..]), GetLe32(s[28..]), GetLe32(s[36..]),
                           s[HEADER_SIZE..HEADER_SIZE + len]), HEADER_SIZE + len)
      else
        Emit(ServerMessage(kind, 0, 0, 0, 0, []), HEADER_SIZE + len)
  }

  datatype Parsed = Parsed(msgs: seq<ServerMessage>, rest: seq<byte>)

  function Before(m: ServerMessage, p: Parsed): Parsed {
    Parsed([m] + p.msgs, p.rest)
  }

  function After(ms: seq<ServerMessage>, p: Parsed): Parsed {
    Parsed(ms + p.msgs, p.rest)
  }

  /** What one feed makes of a buffer. */
  function Drain(s: seq<byte>): Parsed
    decreases |s|
  {
    match FirstStep(s)
    case Wait => Parsed([], s)
    case Clear => Parsed([], [])
    case Emit(m, size) => Before(m, Drain(s[size..]))
  }

  /** No length in the stream is over the limit. */
  predicate Clean(s: seq<byte>)
    decreases |s|
  {
    match FirstStep(s)
    case Wait => true
    case Clear => false
    case Emit(_, size) => Clean(s[size..])
  }

  class ClientParser {
    var buf: seq<byte>

    constructor ()
      ensures buf == []
    {
      buf := [];
    }

    method Feed(data: seq<byte>) returns (msgs: seq<ServerMessage>)
      modifies this
      ensures Parsed(msgs, buf) == Drain(old(buf) + data)
    {
      hide GetLe32, Drain, FirstStep, After;
      buf := buf + data;
      msgs := [];
      NothingBefore(Drain(buf));
      while true
        invariant Drain(old(buf) + data) == After(msgs, Drain(buf))
        decreases |buf|
      {
        Nothing(msgs, buf);
        DrainStep(buf);
        if |buf| < HEADER_SIZE { return; }
        var kind, len := GetLe32(buf), GetLe32(buf[4..]);
        if len > MAX_PAYLOAD {
          buf := [];
          return;
        }
        if |buf| < HEADER_SIZE + len { return; }
        var m := ServerMessage(kind, 0, 0, 0, 0, []);
        if kind == MSG_FRAME {
          m := ServerMessage(kind, GetLe32(buf[8..]), GetLe32(buf[12..]), GetLe32(buf[28..]), GetLe32(buf[36..]),
                             buf[HEADER_SIZE..HEADER_SIZE + len]);
        }
        AfterSnoc(msgs, m, Drain(buf[HEADER_SIZE + len..]));
        buf := buf[HEADER_SIZE + len..];
        msgs := msgs + [m];
      }
    }
  }

  /** One step of draining, as a header announces it. */
  lemma DrainStep(s: seq<byte>)
    ensures |s| < HEADER_SIZE ==> Drain(s) == Parsed([], s)
    ensures |s| >= HEADER_SIZE ==>
              var kind, len := GetLe32(s), GetLe32(s[4..]);
              if len > MAX_PAYLOAD then Drain(s) == Parsed([], [])
              else if |s| < HEADER_SIZE + len then Drain(s) == Parsed([], s)
              else
                Drain(s) == Before(if kind == MSG_FRAME
                                   then ServerMessage(kind, GetLe32(s[8..]), GetLe32(s[12..]), GetLe32(s[28..]),
                                                      GetLe32(s[36..]), s[HEADER_SIZE..HEADER_SIZE + len])
                                   else ServerMessage(kind, 0, 0, 0, 0, []),
                                   Drain(s[HEADER_SIZE + len..]))
  {
    hide GetLe32;
  }

  lemma NothingBefore(p: Parsed)
    ensures After([], p) == p
  {
    assert [] + p.msgs == p.msgs;
  }

  lemma Nothing(ms: seq<ServerMessage>, rest: seq<byte>)
    ensures After(ms, Parsed([], rest)) == Parsed(ms, rest)
    ensures After(ms, Parsed([], [])) == Parsed(ms, [])
  {
  }

  lemma Joined(ms: seq<ServerMessage>, p: Parsed)
    ensures After(ms, p) == Parsed(ms + p.msgs, p.rest)
  {
  }

  lemma AfterSnoc(ms: seq<ServerMessage>, m: ServerMessage, p: Parsed)
    ensures After(ms, Before(m, p)) == After(ms + [m], p)
  {
    assert ms + ([m] + p.msgs) == (ms + [m]) + p.msgs;
  }

  // ---- Chunking

  lemma StepAppend(a: seq<byte>, b: seq<byte>)
    ensures FirstStep(a).Clear? ==> FirstStep(a + b).Clear?
    ensures FirstStep(a).Emit? ==> FirstStep(a + b) == FirstStep(a) && (a + b)[FirstStep(a).size..] == a[FirstStep(a).size..] + b
  {
    if |a| >= HEADER_SIZE {
      WordAppend(a, b, 0); WordAppend(a, b, 4); WordAppend(a, b, 8);
      WordAppend(a, b, 12); WordAppend(a, b, 28); WordAppend(a, b, 36);
      assert a[0..] == a && (a + b)[0..] == a + b;
      hide GetLe32;
      var len := GetLe32(a[4..]);
      if |a| >= HEADER_SIZE + len as int {
        assert (a + b)[HEADER_SIZE..HEADER_SIZE + len] == a[HEADER_SIZE..HEADER_SIZE + len];
      }
    }
  }

  lemma WordAppend(a: seq<byte>, b: seq<byte>, at: nat)
    requires at + 4 <= |a|
    ensures GetLe32((a + b)[at..]) == GetLe32(a[at..])
  {
  }

  /** Feeding after a clean prefix goes on where the prefix stopped. */
  lemma {:induction false} DrainAppend(a: seq<byte>, b: seq<byte>)
    ensures Clean(a) ==> Drain(a + b) == After(Drain(a).msgs, Drain(Drain(a).rest + b))
    ensures Clean(a + b) ==> Clean(a)
    ensures Clean(a) ==> (Clean(a + b) <==> Clean(Drain(a).rest + b))
    ensures !Clean(a) ==> Drain(a) == Drain(a + b) && Drain(a).rest == []
    decreases |a|
  {
    hide FirstStep;
    StepAppend(a, b);
    match FirstStep(a)
    case Wait => assert After([], Drain(a + b)) == Drain(a + b);
    case Clear =>
    case Emit(m, size) =>
      DrainAppend(a[size..], b);
      BeforeAfter(m, Drain(a[size..]).msgs, Drain(Drain(a[size..]).rest + b));
  }

  lemma BeforeAfter(m: ServerMessage, ms: seq<ServerMessage>, p: Parsed)
    ensures Before(m, After(ms, p)) == After([m] + ms, p)
  {
    assert [m] + (ms + p.msgs) == ([m] + ms) + p.msgs;
  }

  /** One more feed after what others left. */
  function FeedMore(p: Parsed, chunk: seq<byte>): Parsed {
    After(p.msgs, Drain(p.rest + chunk))
  }

  function FeedAll(chunks: seq<seq<byte>>): Parsed {
    if chunks == [] then Parsed([], []) else FeedMore(FeedAll(chunks[..|chunks| - 1]), chunks[|chunks| - 1])
  }

  lemma {:induction false} RestIsDone(s: seq<byte>)
    ensures Drain(Drain(s).rest) == Parsed([], Drain(s).rest)
    decreases |s|
  {
    match FirstStep(s)
    case Wait =>
    case Clear =>
    case Emit(_, size) => RestIsDone(s[size..]);
  }

  /** Where a stream is cut, and how often, makes no difference exactly when no length before its
      last byte is over the limit: such a length drops everything buffered with it, and the cuts
      decide what that is. */
  lemma ChunkIndependence(s: seq<byte>)
    ensures (forall chunks: seq<seq<byte>> | Concat(chunks) == s :: FeedAll(chunks) == Drain(s)) <==>
            s == [] || Clean(s[..|s| - 1])
  {
    hide Clean, Drain, FeedAll, FirstStep, Concat;
    if s == [] || Clean(s[..|s| - 1]) {
      forall chunks: seq<seq<byte>> | Concat(chunks) == s ensures FeedAll(chunks) == Drain(s) {
        FeedPart(s, chunks, |chunks|);
        assert chunks[..|chunks|] == chunks;
      }
    } else {
      var k := |s| - 1;
      assert s[..k] + s[k..] == s;
      TwoChunks(s[..k], s[k..]);
      LastByteLost(s[..k], s[k..]);
    }
  }

  lemma TwoChunks(a: seq<byte>, b: seq<byte>)
    ensures Concat([a, b]) == a + b
    ensures FeedAll([a, b]) == FeedMore(Drain(a), b)
  {
    assert [a, b][1..] == [b] && Concat([b]) == b + [];
    assert [a, b][..1] == [a] && [a][..0] == [];
    assert [] + a == a && FeedAll([a]) == After([], Drain(a)) == Drain(a) by { Nothing([], Drain(a).rest); }
  }

  lemma LastByteLost(a: seq<byte>, b: seq<byte>)
    requires !Clean(a) && |b| == 1
    ensures FeedMore(Drain(a), b) != Drain(a + b)
  {
    DrainAppend(a, b);
    assert [] + b == b;
    assert Drain(b) == Parsed([], b);
  }

  /** The first i chunks of a stream that is clean up to its last byte. */
  lemma {:induction false} FeedPart(s: seq<byte>, chunks: seq<seq<byte>>, i: nat)
    requires i <= |chunks| && Concat(chunks) == s && (s == [] || Clean(s[..|s| - 1]))
    ensures FeedAll(chunks[..i]) == Drain(Concat(chunks[..i])) && Concat(chunks[..i]) <= s
  {
    hide Clean, Drain, FirstStep, FeedMore, Concat;
    PartOf(chunks, i);
    if i > 0 {
      FeedPart(s, chunks, i - 1);
      var before, chunk := Concat(chunks[..i - 1]), chunks[i - 1];
      assert chunks[..i] == chunks[..i - 1] + [chunk];
      ConcatSnoc(chunks[..i - 1], chunk);
      FeedOne(s, before, chunk);
    } else {
      NothingFed();
      assert chunks[..0] == [];
    }
  }

  lemma PartOf(chunks: seq<seq<byte>>, i: nat)
    requires i <= |chunks|
    ensures Concat(chunks[..i]) <= Concat(chunks)
  {
    assert chunks == chunks[..i] + chunks[i..];
    ConcatAppend(chunks[..i], chunks[i..]);
  }

  lemma FeedOne(s: seq<byte>, before: seq<byte>, chunk: seq<byte>)
    requires before + chunk <= s && (s == [] || Clean(s[..|s| - 1]))
    ensures FeedMore(Drain(before), chunk) == Drain(before + chunk)
  {
    hide Clean, Drain, FirstStep, After;
    if before == s {
      assert chunk == [] && before + chunk == before && Drain(before).rest + chunk == Drain(before).rest;
      RestIsDone(before);
      Nothing(Drain(before).msgs, Drain(before).rest);
    } else {
      var front := s[..|s| - 1];
      assert front == before + front[|before|..];
      DrainAppend(before, front[|before|..]);
      DrainAppend(before, chunk);
    }
  }

  /** A header announcing one byte too many, followed by one byte: fed in one piece both are
      dropped, fed in two the second is kept. */
  lemma TwoCuts()
    ensures var head := Words([2, 67108865] + Zeros(30));
            && FeedAll([head + [7]]) == Parsed([], [])
            && FeedAll([head, [7]]) == Parsed([], [7])
  {
    hide Words, GetLe32;
    var ws := [2, 67108865] + Zeros(30);
    var head := Words(ws);
    WordAt(ws, 1, []);
    assert head + [] == head;
    assert FirstStep(head) == Clear;
    StepAppend(head, [7]);
    TwoChunks(head, [7]);
    TwoChunks([], head + [7]);
    OneChunk(head + [7]);
    assert [] + [7] == [7] && Drain([7]) == Parsed([], [7]);
  }

  lemma OneChunk(a: seq<byte>)
    ensures FeedAll([a]) == Drain(a)
  {
    assert [a][..0] == [] && [] + a == a;
    assert After([], Drain(a)) == Drain(a);
  }

  // ---- The server's stream

  /** The stripes of one picture; a stripe that encodes to nothing is left out. */
  function Stripes(w: u32, h: u32, jpegs: seq<seq<byte>>): (xs: seq<Wire>)
    requires |jpegs| <= STRIPES && forall j <- jpegs :: |j| < 0x1_0000_0000
    ensures forall x <- xs :: Sendable(x)
  {
    if jpegs == [] then []
    else
      var i: nat := |jpegs| - 1;
      Stripes(w, h, jpegs[..i]) +
      if jpegs[i] == [] then [] else [Frame(w, h, StripeBounds(h, i).0, StripeBounds(h, i).1, jpegs[i])]
  }

  lemma {:induction false} EncodeAppend(xs: seq<Wire>, ys: seq<Wire>)
    requires forall x <- xs + ys :: Sendable(x)
    requires forall x <- xs :: Sendable(x)
    requires forall y <- ys :: Sendable(y)
    ensures EncodeAll(xs + ys) == EncodeAll(xs) + EncodeAll(ys)
  {
    hide Encode, Sendable;
    if xs == [] {
      assert xs + ys == ys;
    } else {
      assert (xs + ys)[1..] == xs[1..] + ys;
      EncodeAppend(xs[1..], ys);
      Assoc(Encode(xs[0]), EncodeAll(xs[1..]), EncodeAll(ys));
    }
  }

  /** The server's end of a session: the bytes sent so far, and what they stand for. */
  class StripeServer {
    var wire: seq<byte>
    ghost var sent: seq<Wire>

    ghost predicate Valid()
      reads this
    {
      (forall x <- sent :: Sendable(x)) && wire == EncodeAll(sent)
    }

    /** The opening sequence that follows the viewer's hello. */
    constructor ()
      ensures Valid()
      ensures sent == OPENING
    {
      wire, sent := [], [];
      new;
      Send(Control(MSG_ACK, 0, 0));
      Send(Control(MSG_DISPLAY, 0, 1));
      Send(Control(MSG_DISPLAY, 1, 1));
      Send(Control(MSG_HEARTBEAT, 0, 0));
      Send(Control(MSG_HEARTBEAT, 0, 0));
    }

    method Send(x: Wire)
      requires Valid() && Sendable(x)
      modifies this
      ensures Valid() && sent == old(sent) + [x] && wire == old(wire) + Encode(x)
    {
      hide Sendable, Encode;
      EncodeAppend(sent, [x]);
      assert EncodeAll([x]) == Encode(x) + [] == Encode(x);
      wire := wire + Encode(x);
      sent := sent + [x];
    }

    method Heartbeat()
      requires Valid()
      modifies this
      ensures Valid() && sent == old(sent) + [Control(MSG_HEARTBEAT, 15, 1)]
    {
      Send(Control(MSG_HEARTBEAT, 15, 1));
    }

    /** One picture, already encoded stripe by stripe. */
    method SendPicture(w: u32, h: u32, jpegs: seq<seq<byte>>)
      requires Valid() && |jpegs| == STRIPES && forall j <- jpegs :: |j| < 0x1_0000_0000
      modifies this
      ensures Valid() && sent == old(sent) + Stripes(w, h, jpegs)
    {
      hide EncodeAll, Encode;
      assert sent + [] == sent;
      for i: nat := 0 to STRIPES
        invariant Valid() && sent == old(sent) + Stripes(w, h, jpegs[..i])
      {
        assert jpegs[..i + 1][..i] == jpegs[..i];
        if jpegs[i] == [] { continue; }
        var (yStart, yEnd) := StripeBounds(h, i);
        Send(Frame(w, h, yStart, yEnd, jpegs[i]));
      }
      assert jpegs[..STRIPES] == jpegs;
    }
  }

  datatype ServerEvent = Beat | Picture(w: u32, h: u32, jpegs: seq<seq<byte>>)

  predicate Encoded(e: ServerEvent) {
    e.Picture? ==> |e.jpegs| == STRIPES && forall j <- e.jpegs :: |j| < 0x1_0000_0000
  }

  const OPENING: seq<Wire> :=
    [Control(MSG_ACK, 0, 0), Control(MSG_DISPLAY, 0, 1), Control(MSG_DISPLAY, 1, 1),
     Control(MSG_HEARTBEAT, 0, 0), Control(MSG_HEARTBEAT, 0, 0)]

  function MessagesOf(events: seq<ServerEvent>): (xs: seq<Wire>)
    requires forall e <- events :: Encoded(e)
  {
    if events == [] then OPENING
    else
      var last := events[|events| - 1];
      assert last in events && Encoded(last);
      MessagesOf(events[..|events| - 1]) +
      if last.Beat? then [Control(MSG_HEARTBEAT, 15, 1)] else Stripes(last.w, last.h, last.jpegs)
  }

  /** A session: the opening, then heartbeats and pictures as they come. */
  method Serve(events: seq<ServerEvent>) returns (server: StripeServer)
    requires forall e <- events :: Encoded(e)
    ensures fresh(server) && server.Valid() && server.sent == MessagesOf(events)
  {
    hide EncodeAll, Stripes;
    server := new StripeServer();
    for i := 0 to |events|
      invariant fresh(server) && server.Valid() && server.sent == MessagesOf(events[..i])
    {
      assert events[..i + 1][..i] == events[..i] && events[i] in events;
      match events[i] {
        case Beat => server.Heartbeat();
        case Picture(w, h, jpegs) => server.SendPicture(w, h, jpegs);
      }
    }
    assert events[..|events|] == events;
  }

  /** What a viewer sees of a message. */
  function Seen(x: Wire): ServerMessage {
    match x
    case Control(kind, _, _) => ServerMessage(kind, 0, 0, 0, 0, [])
    case Frame(w, h, y0, y1, jpeg) => ServerMessage(MSG_FRAME, w, h, y0, y1, jpeg)
  }

  function SeenAll(xs: seq<Wire>): seq<ServerMessage> {
    if xs == [] then [] else [Seen(xs[0])] + SeenAll(xs[1..])
  }

  predicate Small(x: Wire) {
    x.Frame? ==> |x.jpeg| <= MAX_PAYLOAD
  }

  /** A message is read back exactly when its payload is within the limit. */
  lemma EncodedStep(x: Wire, tail: seq<byte>)
    requires Sendable(x)
    ensures Small(x) <==> x.Control? || |x.jpeg| <= 67108864
    ensures FirstStep(Encode(x) + tail) == if Small(x) then Emit(Seen(x), |Encode(x)|) else Clear
    ensures (Encode(x) + tail)[|Encode(x)|..] == tail
  {
    hide Words, GetLe32;
    match x
    case Control(kind, f8, f12) =>
      var ws := ControlWords(kind, f8, f12);
      WordAt(ws, 0, tail); WordAt(ws, 1, tail);
      assert (Words(ws) + tail)[0..] == Words(ws) + tail;
    case Frame(w, h, y0, y1, jpeg) =>
      var ws := FrameWords(w, h, y0, y1, |jpeg|);
      FrameBack(ws, jpeg, tail);
  }

  lemma FrameBack(ws: seq<u32>, jpeg: seq<byte>, tail: seq<byte>)
    requires |ws| == 32 && ws[0] == MSG_FRAME && ws[1] == |jpeg|
    ensures FirstStep(Words(ws) + jpeg + tail) ==
              if |jpeg| <= MAX_PAYLOAD
              then Emit(ServerMessage(MSG_FRAME, ws[2], ws[3], ws[7], ws[9], jpeg), HEADER_SIZE + |jpeg|)
              else Clear
  {
    hide Words, GetLe32;
    var s := Words(ws) + jpeg + tail;
    Assoc(Words(ws), jpeg, tail);
    WordAt(ws, 0, jpeg + tail); WordAt(ws, 1, jpeg + tail); WordAt(ws, 2, jpeg + tail);
    WordAt(ws, 3, jpeg + tail); WordAt(ws, 7, jpeg + tail); WordAt(ws, 9, jpeg + tail);
    assert s[0..] == s;
    assert s[HEADER_SIZE..HEADER_SIZE + |jpeg|] == jpeg;
  }

  /** The viewer recovers every message of the session, and nothing is left over. */
  lemma {:induction false} SessionBack(xs: seq<Wire>)
    requires forall x <- xs :: Sendable(x) && Small(x)
    ensures Drain(EncodeAll(xs)) == Parsed(SeenAll(xs), []) && Clean(EncodeAll(xs))
  {
    hide Encode, Sendable, Seen;
    if xs != [] {
      EncodedStep(xs[0], EncodeAll(xs[1..]));
      SessionBack(xs[1..]);
    }
  }

  lemma FeedNext(wire: seq<byte>, fed: seq<byte>, chunks: seq<seq<byte>>, i: nat)
    requires i < |chunks| && Clean(wire) && fed + Concat(chunks[i..]) == wire
    ensures fed + chunks[i] + Concat(chunks[i + 1..]) == wire
    ensures Drain(fed + chunks[i]) == After(Drain(fed).msgs, Drain(Drain(fed).rest + chunks[i]))
  {
    hide Clean, Drain, After;
    assert chunks[i..][1..] == chunks[i + 1..];
    Assoc(fed, chunks[i], Concat(chunks[i + 1..]));
    DrainAppend(fed, Concat(chunks[i..]));
    DrainAppend(fed, chunks[i]);
  }

  lemma NothingFed()
    ensures Drain([]) == Parsed([], []) && Concat([]) == []
    ensures forall s: seq<byte> :: [] + s == s && s + Concat([]) == s
  {
  }

  /** The whole way: a server's stream, delivered to a viewer in any pieces. */
  method View(server: StripeServer, chunks: seq<seq<byte>>) returns (msgs: seq<ServerMessage>)
    requires server.Valid() && Concat(chunks) == server.wire
    requires forall x <- server.sent :: Small(x)
    ensures msgs == SeenAll(server.sent)
  {
    hide EncodeAll, Drain, Clean, SeenAll, After;
    SessionBack(server.sent);
    var parser := new ClientParser();
    msgs := [];
    ghost var fed: seq<byte> := [];
    NothingFed();
    for i := 0 to |chunks|
      invariant fed + Concat(chunks[i..]) == server.wire
      invariant Parsed(msgs, parser.buf) == Drain(fed)
    {
      FeedNext(server.wire, fed, chunks, i);
      var more := parser.Feed(chunks[i]);
      Joined(msgs, Parsed(more, parser.buf));
      msgs := msgs + more;
      fed := fed + chunks[i];
    }
    assert chunks[|chunks|..] == [];
  }

  lemma {:induction false} StripeAt(w: u32, h: u32, jpegs: seq<seq<byte>>, i: nat)
    requires |jpegs| <= STRIPES && i < |jpegs| && forall j <- jpegs :: 0 < |j| < 0x1_0000_0000
    ensures |Stripes(w, h, jpegs)| == |jpegs|
    ensures Stripes(w, h, jpegs)[i] == Frame(w, h, StripeBounds(h, i).0, StripeBounds(h, i).1, jpegs[i])
  {
    hide StripeBounds;
    var front := jpegs[..|jpegs| - 1];
    if i < |front| {
      StripeAt(w, h, front, i);
    } else if i > 0 {
      StripeAt(w, h, front, 0);
    }
  }

  predicate Shows(x: Wire, row: nat) {
    x.Frame? && x.yStart <= row < x.yEnd
  }

  /** A viewer that has all the stripes of a picture has every row, in one stripe only. */
  lemma ScreenRecovered(w: u32, h: u32, jpegs: seq<seq<byte>>, row: nat)
    requires |jpegs| == STRIPES && row < h && forall j <- jpegs :: 0 < |j| < 0x1_0000_0000
    ensures |Stripes(w, h, jpegs)| == STRIPES
    ensures exists i: nat | i < STRIPES :: Shows(Stripes(w, h, jpegs)[i], row)
    ensures forall i: nat, j: nat | i < j < STRIPES ::
              !(Shows(Stripes(w, h, jpegs)[i], row) && Shows(Stripes(w, h, jpegs)[j], row))
  {
    hide StripeBounds, Stripes;
    EachRowOnce(h, row);
    StripeAt(w, h, jpegs, 0);
    forall k: nat | k < STRIPES ensures Shows(Stripes(w, h, jpegs)[k], row) <==> RowIn(h, k, row) {
      StripeAt(w, h, jpegs, k);
    }
    var i: nat :| i < STRIPES && RowIn(h, i, row);
    assert Shows(Stripes(w, h, jpegs)[i], row);
  }

  // ---- The viewer's hello

  const HELLO_PAYLOAD: u32 := 334

  function ClientHello(width: u32, height: u32, payload: seq<byte>): (s: seq<byte>)
    requires |payload| == HELLO_PAYLOAD
    ensures |s| == 462
  {
    Words(HelloWords(width, height)) + payload
  }

  function HelloWords(width: u32, height: u32): (ws: seq<u32>)
    ensures |ws| == 32
  {
    [0, HELLO_PAYLOAD, 4, 8, 0, 3, 3, 2, 60, 65541, 0, 262204, 1, width] + Zeros(8) + [height] + Zeros(8) + [1]
  }

  function ParseClientHello(s: seq<byte>): Option<(u32, u32)> {
    if |s| < HEADER_SIZE || GetLe32(s) != 0 then None
    else
      var width, height := GetLe32(s[52..]), GetLe32(s[88..]);
      if width > 0 && height > 0 then Some((width, height)) else None
  }

  /** The server sees the size the client declares, if neither side is zero, and the length that
      makes it read exactly the payload. */
  lemma HelloBack(width: u32, height: u32, payload: seq<byte>)
    requires |payload| == HELLO_PAYLOAD
    ensures var s := ClientHello(width, height, payload);
            && ParseClientHello(s) == (if width > 0 && height > 0 then Some((width, height)) else None)
            && HEADER_SIZE + GetLe32(s[4..]) == |s|
    // The 128 bytes of the header are enough, and fewer are not.
    ensures forall k: nat :: k <= |ClientHello(width, height, payload)| ==>
              ParseClientHello(ClientHello(width, height, payload)[..k]) ==
              if k >= 128 && width > 0 && height > 0 then Some((width, height)) else None
  {
    hide Words, GetLe32, ParseClientHello;
    var ws := HelloWords(width, height);
    var s := ClientHello(width, height, payload);
    HeaderDecides(width, height, payload);
    WordAt(ws, 1, payload);
    forall k: nat | k <= |s|
      ensures ParseClientHello(s[..k]) == if k >= 128 && width > 0 && height > 0 then Some((width, height)) else None
    {
      if k >= 128 {
        assert s[..k] == Words(ws) + payload[..k - 128];
        HeaderDecides(width, height, payload[..k - 128]);
      } else {
        TooShort(s[..k]);
      }
    }
  }

  lemma TooShort(s: seq<byte>)
    requires |s| < 128
    ensures ParseClientHello(s) == None
  {
  }

  lemma HeaderDecides(width: u32, height: u32, rest: seq<byte>)
    ensures ParseClientHello(Words(HelloWords(width, height)) + rest) ==
            if width > 0 && height > 0 then Some((width, height)) else None
  {
    hide Words, GetLe32;
    var ws := HelloWords(width, height);
    var s := Words(ws) + rest;
    WordAt(ws, 0, rest); WordAt(ws, 13, rest); WordAt(ws, 22, rest);
    assert s[0..] == s;
  }

  // ---- In figures

  function At(s: seq<byte>, offset: nat): u32
    requires offset + 4 <= |s|
  {
    GetLe32(s[offset..])
  }

  /** Word k of a header is at byte 4k. */
  lemma FieldsAt(ws: seq<u32>, tail: seq<byte>)
    requires |ws| == 32
    ensures var s := Words(ws) + tail;
            && At(s, 0) == ws[0] && At(s, 4) == ws[1] && At(s, 8) == ws[2] && At(s, 12) == ws[3]
            && At(s, 16) == ws[4] && At(s, 20) == ws[5] && At(s, 24) == ws[6] && At(s, 28) == ws[7]
            && At(s, 32) == ws[8] && At(s, 36) == ws[9] && At(s, 40) == ws[10] && At(s, 44) == ws[11]
            && At(s, 48) == ws[12] && At(s, 52) == ws[13] && At(s, 56) == ws[14] && At(s, 60) == ws[15]
            && At(s, 64) == ws[16] && At(s, 68) == ws[17] && At(s, 72) == ws[18] && At(s, 76) == ws[19]
            && At(s, 80) == ws[20] && At(s, 84) == ws[21] && At(s, 88) == ws[22] && At(s, 92) == ws[23]
            && At(s, 96) == ws[24] && At(s, 100) == ws[25] && At(s, 104) == ws[26] && At(s, 108) == ws[27]
            && At(s, 112) == ws[28] && At(s, 116) == ws[29] && At(s, 120) == ws[30] && At(s, 124) == ws[31]
  {
    hide Words, GetLe32;
    WordAt(ws, 0, tail); WordAt(ws, 1, tail); WordAt(ws, 2, tail); WordAt(ws, 3, tail); WordAt(ws, 4, tail); WordAt(ws, 5, tail); WordAt(ws, 6, tail); WordAt(ws, 7, tail);
    WordAt(ws, 8, tail); WordAt(ws, 9, tail); WordAt(ws, 10, tail); WordAt(ws, 11, tail); WordAt(ws, 12, tail); WordAt(ws, 13, tail); WordAt(ws, 14, tail); WordAt(ws, 15, tail);
    WordAt(ws, 16, tail); WordAt(ws, 17, tail); WordAt(ws, 18, tail); WordAt(ws, 19, tail); WordAt(ws, 20, tail); WordAt(ws, 21, tail); WordAt(ws, 22, tail); WordAt(ws, 23, tail);
    WordAt(ws, 24, tail); WordAt(ws, 25, tail); WordAt(ws, 26, tail); WordAt(ws, 27, tail); WordAt(ws, 28, tail); WordAt(ws, 29, tail); WordAt(ws, 30, tail); WordAt(ws, 31, tail);
  }

  /** A frame on the wire: header of 128 bytes, fields by byte offset, and the JPEG. */
  lemma FrameInFigures(w: u32, h: u32, y0: u32, y1: u32, jpeg: seq<byte>)
    requires |jpeg| < 0x1_0000_0000 && w < 0x4000_0000
    ensures var s := Encode(Frame(w, h, y0, y1, jpeg));
            && |s| == 128 + |jpeg| && s[128..] == jpeg
            && At(s, 0) == 2 && At(s, 4) == |jpeg| && At(s, 8) == w && At(s, 12) == h && At(s, 16) == 4 * w
            && At(s, 20) == 21 && At(s, 24) == 0 && At(s, 28) == y0 && At(s, 32) == w && At(s, 36) == y1
            && At(s, 40) == 3 && At(s, 44) == 2 && At(s, 48) == 60 && At(s, 52) == 3 && At(s, 56) == 0
            && At(s, 60) == 4 && At(s, 64) == 1 && At(s, 68) == |jpeg|
            && At(s, 72) == 0 && At(s, 76) == 0 && At(s, 100) == 0 && At(s, 124) == 0
  {
    hide Words, At;
    FieldsAt(FrameWords(w, h, y0, y1, |jpeg|), jpeg);
  }

  /** A control message, and the sequence that opens a session. */
  lemma OpeningInFigures(kind: u32, f8: u32, f12: u32)
    requires kind != 2
    ensures var s := Encode(Control(kind, f8, f12));
            && |s| == 128 && At(s, 0) == kind && At(s, 4) == 0 && At(s, 8) == f8 && At(s, 12) == f12
            && At(s, 16) == 0 && At(s, 20) == 0 && At(s, 68) == 0 && At(s, 124) == 0
    ensures OPENING == [Control(4, 0, 0), Control(3, 0, 1), Control(3, 1, 1), Control(1, 0, 0), Control(1, 0, 0)]
    ensures MessagesOf([Beat]) == OPENING + [Control(1, 15, 1)]
  {
    hide Words, At;
    FieldsAt(ControlWords(kind, f8, f12), []);
    assert Words(ControlWords(kind, f8, f12)) + [] == Words(ControlWords(kind, f8, f12));
    assert [Beat][..0] == [];
  }

  /** The first three stripes are equal, and the last takes what is left. */
  lemma StripesInFigures(h: u32, i: nat)
    requires i < 4
    ensures StripeBounds(h, i).0 == h / 4 * i
    ensures StripeBounds(h, i).1 - StripeBounds(h, i).0 == if i < 3 then h / 4 else h / 4 + h % 4
  {
  }

  /** The viewer's hello, by byte offset. */
  lemma HelloInFigures(width: u32, height: u32, payload: seq<byte>)
    requires |payload| == 334
    ensures var s := ClientHello(width, height, payload);
            && At(s, 0) == 0 && At(s, 4) == 334 && At(s, 8) == 4 && At(s, 12) == 8 && At(s, 16) == 0
            && At(s, 20) == 3 && At(s, 24) == 3 && At(s, 28) == 2 && At(s, 32) == 60 && At(s, 36) == 65541
            && At(s, 40) == 0 && At(s, 44) == 262204 && At(s, 48) == 1
            && At(s, 52) == width && At(s, 88) == height && At(s, 124) == 1 && s[128..] == payload
  {
    hide Words, At;
    FieldsAt(HelloWords(width, height), payload);
  }
}

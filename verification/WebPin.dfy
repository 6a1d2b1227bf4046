/** Web pairing (host/src/web_pin.h, verify_web_pin in host/src/web_frontend.cpp) and the
    handover of the channel to the streaming server (read_hello in host/src/transport_server.cpp). */
module WebPairing {
  import opened Bytes
  import opened Framing
  import opened WsFrames
  import opened WsStream
  import opened WsChannels

  const MSG_HELLO: byte := 1
  const MSG_PAIR: byte := 20
  const MSG_PAIR_RESULT: byte := 21
  const MSG_CLIENT_SETTINGS: byte := 22
  const MAX_TRIES: nat := 5
  const MAX_SETTINGS: nat := 8192

  // ----- The comparison ----------------------------------------------------

  function OrBits(a: nat, b: nat): nat {
    if a == 0 && b == 0 then 0 else (if a % 2 == 1 || b % 2 == 1 then 1 else 0) + 2 * OrBits(a / 2, b / 2)
  }

  lemma {:induction false} OrIsZero(a: nat, b: nat)
    ensures OrBits(a, b) == 0 <==> a == 0 && b == 0
  {
    if a != 0 || b != 0 { OrIsZero(a / 2, b / 2); }
  }

  /** It is inclusive or: a bit is set exactly if one of the two is. */
  lemma {:induction false} OrIsBitwise(a: nat, b: nat, k: nat)
    ensures Bit(OrBits(a, b), k) == if Bit(a, k) == 0 && Bit(b, k) == 0 then 0 else 1
  {
    var d := if a % 2 == 1 || b % 2 == 1 then 1 else 0;
    var q := OrBits(a / 2, b / 2);
    Halves(d, q);
    if a == 0 && b == 0 {
      ZeroBit(k);
    } else if k == 0 {
      assert Pow2(0) == 1;
    } else {
      HalfBit(a, k);
      HalfBit(b, k);
      HalfBit(OrBits(a, b), k);
      OrIsBitwise(a / 2, b / 2, k - 1);
    }
  }

  lemma ZeroBit(k: nat)
    ensures Bit(0, k) == 0
  {
  }

  lemma {:induction false} XorIsZero(a: nat, b: nat)
    ensures XorBits(a, b) == 0 <==> a == b
  {
    if a != 0 || b != 0 { XorIsZero(a / 2, b / 2); }
  }

  method PinMatches(submitted: seq<byte>, expected: seq<byte>) returns (same: bool)
    ensures same <==> submitted == expected
  {
    if |submitted| != |expected| { return false; }
    var diff: nat := 0;
    for i := 0 to |expected|
      invariant diff == 0 <==> submitted[..i] == expected[..i]
    {
      XorIsZero(submitted[i], expected[i]);
      OrIsZero(diff, Xor(submitted[i], expected[i]));
      assert submitted[..i + 1] == submitted[..i] + [submitted[i]];
      assert expected[..i + 1] == expected[..i] + [expected[i]];
      diff := OrBits(diff, Xor(submitted[i], expected[i]));
    }
    assert submitted[..|expected|] == submitted && expected[..|expected|] == expected;
    return diff == 0;
  }

  // ----- What pairing means on messages ------------------------------------

  /** The codes submitted in a list of messages. */
  function Tries(ms: seq<Message>): seq<seq<byte>> {
    if ms == [] then []
    else
      var last := ms[|ms| - 1];
      Tries(ms[..|ms| - 1]) + (if last.kind == MSG_PAIR then [last.body] else [])
  }

  lemma TriesSnoc(ms: seq<Message>, m: Message)
    ensures Tries(ms + [m]) == Tries(ms) + (if m.kind == MSG_PAIR then [m.body] else [])
  {
    assert (ms + [m])[..|ms|] == ms;
  }

  /** The reply to the i-th code (from 0): accepted, or refused with the tries left. */
  function ReplyTo(code: seq<byte>, expected: seq<byte>, i: nat): Message
    requires i < MAX_TRIES
  {
    Message(MSG_PAIR_RESULT, if code == expected then [1, 0] else [0, MAX_TRIES - 1 - i])
  }

  function Replies(tries: seq<seq<byte>>, expected: seq<byte>): (r: seq<seq<byte>>)
    requires |tries| <= MAX_TRIES
    ensures |r| == |tries|
  {
    seq(|tries|, i requires 0 <= i < |tries| => DataFrame(ReplyTo(tries[i], expected, i)))
  }

  function DataFrame(m: Message): seq<byte>
    requires |m.body| < MAX_FRAME
  {
    Serialize(BinaryFrame(Payload(m)))
  }

  /** The bytes of the replies: accepted, or refused with 4, 3, 2, 1, 0 tries left; only messages of
      kind 20 are tries. */
  lemma RepliesInBytes(tries: seq<seq<byte>>, expected: seq<byte>, i: nat, m: Message)
    requires i < |tries| <= 5
    ensures Replies(tries, expected)[i] == [0x82, 3, 21] + if tries[i] == expected then [1, 0] else [0, 4 - i]
    ensures Tries([m]) == if m.kind == 20 then [m.body] else []
  {
    assert [m][..0] == [];
  }

  /** The settings sent: what was stored, up to 8192 bytes of it, and else an empty object. */
  lemma SettingsInBytes(stored: seq<byte>)
    ensures Settings(stored).kind == 22 && 0 < |Settings(stored).body| <= 8192
    ensures 0 < |stored| <= 8192 <==> Settings(stored).body == stored && stored != []
    ensures DataFrame(Settings([])) == [0x82, 3, 22, 0x7b, 0x7d]
  {
  }

  /** Sends one message on a channel with nothing half sent. */
  method SendMessage(ch: WsChannel, m: Message) returns (ok: bool)
    requires ch.Valid() && ch.outAcc == [] && |m.body| < MAX_FRAME
    modifies ch`wire, ch`sent, ch`outAcc, ch`closed
    ensures ch.Valid()
    ensures old(ch.closed) ==> !ok && ch.closed && ch.sent == old(ch.sent)
    ensures !old(ch.closed) ==> ch.sent == old(ch.sent) + [DataFrame(m)]
    ensures ok ==> !ch.closed && ch.outAcc == []
    ensures !ok ==> ch.closed
    ensures !old(ch.closed) ==> ok == (|Concat(ch.sent)| <= ch.capacity)
  {
    hide Clip, HoldsOneFrame, Concat, Serialize, EncodeMessage;
    EncodedSplits(m, []);
    assert EncodeMessage(m) + [] == EncodeMessage(m);
    assert [] + EncodeMessage(m) == EncodeMessage(m);
    OnePayload(Payload(m));
    ok := ch.SendAll(EncodeMessage(m));
    if !old(ch.closed) {
      OnlyGrowth(old(ch.sent), ch.sent, DataFrame(m));
    }
  }

  lemma OnlyGrowth(before: seq<seq<byte>>, now: seq<seq<byte>>, frame: seq<byte>)
    requires before < now && now <= before + [frame]
    ensures now == before + [frame]
  {
    assert |now| == |before + [frame]|;
  }

  lemma OnePayload(payload: seq<byte>)
    requires |payload| <= MAX_FRAME
    ensures Also(payload, SplitAll([])) == Split([payload], [], false)
    ensures Wire([payload]) == [Serialize(BinaryFrame(payload))]
  {
  }

  // ----- A parser reading a channel ----------------------------------------

  /** A whole buffered frame is one message, and takes the buffer with it. */
  lemma FrameAdvance(w: seq<byte>)
    requires HoldsOneFrame(w) && w != []
    ensures Advance(w) == (Some(Message(w[4], w[5..])), [])
  {
    hide GetU32, PutU32;
    U32RoundTrip(|w| - 4, w[4..]);
    assert GetU32(w) == |w| - 4;
    assert w[|w|..] == [];
    assert w[5..|w|] == w[5..];
  }

  /** Part of a frame is not yet a message. */
  lemma PartWaits(held: seq<byte>, unread: seq<byte>)
    requires HoldsOneFrame(held + unread) && unread != []
    ensures Advance(held) == (None, held)
  {
    hide PutU32;
    var w := held + unread;
    U32RoundTrip(|w| - 4, w[4..]);
    if |held| >= 4 {
      assert GetU32(held) == GetU32(w);
    }
  }

  /** Every message still to come, in what the parser holds and what the channel will bring. */
  ghost function Coming(parser: MessageParser, ch: WsChannel): seq<byte>
    reads parser, ch
    requires parser.Valid() && ch.Valid()
  {
    parser.Pending() + ch.Incoming()
  }

  // ----- verify_web_pin ----------------------------------------------------

  /** The pairing conversation so far: which messages were consumed, and that the channel and
      the private parser stand where those messages end. */
  ghost predicate Conversing(parser: MessageParser, ch: WsChannel, expected: seq<byte>,
                             before: Parsed, wasSent: seq<seq<byte>>, consumed: seq<Message>)
    reads parser, ch
  {
    && parser.Valid() && ch.Valid()
    && HoldsOneFrame(parser.Pending() + ch.inbuf[ch.inpos..])
    && before == After(consumed, Parse(Coming(parser, ch)))
    && |Tries(consumed)| <= MAX_TRIES
    && DataFrames(ch.sent) == wasSent + Replies(Tries(consumed), expected)
  }

  /** Receiving more bytes moves them from the channel to the parser and nothing else. It fails
      exactly when the channel brings no application data. */
  method Receive(parser: MessageParser, ch: WsChannel, n: nat, pollReady: bool) returns (ok: bool)
    requires parser.Valid() && ch.Valid() && n > 0
    requires HoldsOneFrame(parser.Pending() + ch.inbuf[ch.inpos..])
    requires ch.inbuf == [] ==> parser.Pending() == []
    modifies parser, ch
    ensures parser.Valid() && ch.Valid()
    ensures ok ==> HoldsOneFrame(parser.Pending() + ch.inbuf[ch.inpos..])
    ensures ok ==> !ch.closed && Coming(parser, ch) == old(Coming(parser, ch))
    ensures ok ==> ch.at > old(ch.at) ||
                   (ch.at == old(ch.at) && |ch.inbuf| - ch.inpos < old(|ch.inbuf| - ch.inpos))
    ensures !ok && !old(ch.closed) ==> old(ch.inbuf) == [] && NothingCame(ch, old(ch.at), pollReady)
    ensures !old(ch.closed) && old(ch.inbuf) != [] ==> ok
    ensures DataFrames(ch.sent) == old(DataFrames(ch.sent))
    ensures ch.outAcc == old(ch.outAcc)
    ensures old(ch.InStep()) ==> ch.InStep()
  {
    hide ReadStep, HoldsOneFrame, Clip, Concat, DataFrames, Tunnel, Clean, WaitOutcome, Pull, Prefixed;
    ok := ch.WaitReadable(pollReady);
    if !ok { return; }
    ghost var held, unread := parser.Pending(), ch.inbuf[ch.inpos..];
    if old(ch.inbuf) == [] {
      assert held + unread == ch.inbuf;
    }
    var got := ch.Recv(n);
    if got.None? { return false; }
    parser.Feed(got.value);
    Assoc(held, got.value, ch.inbuf[ch.inpos..]);
    Assoc(held, got.value, ch.Incoming());
  }

  /** The channel waited from `was` and no application data came: the peer closed, or poll
      reported nothing, or only control frames woke it, or a frame could not be read (there was
      none left, or it was malformed). */
  ghost predicate NothingCame(ch: WsChannel, was: nat, pollReady: bool)
    reads ch
  {
    && was <= |ch.data|
    && var o := WaitOutcome(ch.data, ch.cuts, was, pollReady);
       !o.App? && ch.at == o.at && ch.closed == o.Closed? && ch.inbuf == []
  }

  /** The messages the peer sends, told apart by what this end still has to read. */
  lemma FrameDone(m: Message, held: seq<byte>, onWire: seq<byte>)
    requires Advance(held) == (Some(m), [])
    ensures Parse(held + onWire) == Before(m, Parse(onWire))
  {
    NextKeepsMeaning(held, Some(m), [], onWire);
    assert [] + onWire == onWire;
  }

  lemma AnotherReply(tries: seq<seq<byte>>, code: seq<byte>, expected: seq<byte>)
    requires |tries| < MAX_TRIES
    ensures Replies(tries + [code], expected) ==
            Replies(tries, expected) + [DataFrame(ReplyTo(code, expected, |tries|))]
  {
    hide DataFrame;
  }

  lemma ReplyIsData(wasSent: seq<seq<byte>>, m: Message)
    requires |m.body| < MAX_FRAME
    ensures DataFrames(wasSent + [DataFrame(m)]) == DataFrames(wasSent) + [DataFrame(m)]
  {
    DataFramesSnoc(wasSent, DataFrame(m));
  }

  /** Takes the next message out of the parser, if it holds one. */
  method TakeMessage(parser: MessageParser, ch: WsChannel) returns (out: Option<Message>)
    requires parser.Valid() && ch.Valid()
    requires HoldsOneFrame(parser.Pending() + ch.inbuf[ch.inpos..])
    modifies parser
    ensures parser.Valid() && HoldsOneFrame(parser.Pending() + ch.inbuf[ch.inpos..])
    ensures match out
            case None => Coming(parser, ch) == old(Coming(parser, ch))
                         && (ch.inbuf == [] ==> parser.Pending() == [])
            case Some(m) => parser.Pending() == [] && ch.inbuf == []
                            && Parse(old(Coming(parser, ch))) == Before(m, Parse(Coming(parser, ch)))
                            && old(parser.Pending()) != []
  {
    hide HoldsOneFrame, Parse, Tunnel, Clip, Concat;
    ghost var held := parser.Pending();
    if ch.inbuf[ch.inpos..] != [] {
      PartWaits(held, ch.inbuf[ch.inpos..]);
    } else {
      assert held + [] == held;
      if held != [] {
        FrameAdvance(held);
        FrameDone(Advance(held).0.value, held, ch.OnWire());
        assert [] + ch.OnWire() == ch.OnWire();
      } else {
        assert Advance([]) == (None, []);
      }
    }
    out := parser.Next();
    NothingHeld(ch.OnWire());
  }

  lemma NothingHeld(s: seq<byte>)
    ensures [] + s == s && HoldsOneFrame([])
    ensures HoldsOneFrame([] + [])
  {
  }

  /** Compares one code and replies to it. */
  method Answer(ch: WsChannel, pin: seq<byte>, expected: seq<byte>, ghost before: seq<seq<byte>>, tries: nat,
                ghost wasSent: seq<seq<byte>>)
    returns (same: bool, sentOk: bool)
    requires ch.Valid() && !ch.closed && ch.outAcc == [] && tries == |before| < MAX_TRIES
    requires DataFrames(ch.sent) == wasSent + Replies(before, expected)
    modifies ch`wire, ch`sent, ch`outAcc, ch`closed
    ensures ch.Valid() && same == (pin == expected)
    ensures DataFrames(ch.sent) == wasSent + Replies(before + [pin], expected)
    ensures sentOk ==> !ch.closed && ch.outAcc == []
    ensures !sentOk ==> ch.closed
  {
    hide HoldsOneFrame, Tunnel, Clean, Clip, Concat, DataFrames, Replies, DataFrame;
    same := PinMatches(pin, expected);
    var reply := Message(MSG_PAIR_RESULT, if same then [1, 0] else [0, MAX_TRIES - 1 - tries]);
    AnotherReply(before, pin, expected);
    ReplyIsData(ch.sent, reply);
    Assoc(wasSent, Replies(before, expected), [DataFrame(reply)]);
    sentOk := SendMessage(ch, reply);
  }

  /** Holds the stream until the peer submits the pairing code, five tries at most. `stop` and
      `poll` stand for the stop flag and for poll() at each turn of the loop. */
  method VerifyWebPin(ch: WsChannel, expected: seq<byte>, stop: nat -> bool, poll: nat -> bool)
    returns (ok: bool, ghost consumed: seq<Message>, ghost turn: nat, ghost last: nat)
    requires ch.Valid() && !ch.closed && ch.inbuf == [] && ch.outAcc == []
    modifies ch
    ensures ch.Valid() && (old(ch.InStep()) ==> ch.InStep())
    // What was consumed, and what the next reader will find.
    ensures consumed <= Parse(old(ch.Incoming())).msgs
    ensures ok ==> Parse(old(ch.Incoming())) == After(consumed, Parse(ch.Incoming()))
    // At most five codes; each got its reply, and nothing else was sent but pongs.
    ensures |Tries(consumed)| <= 5
    ensures DataFrames(ch.sent) == old(DataFrames(ch.sent)) + Replies(Tries(consumed), expected)
    // Accepted exactly on the last code consumed, never on an earlier one.
    ensures ok ==> consumed != [] && consumed[|consumed| - 1] == Message(20, expected)
    ensures ok ==> expected !in Tries(consumed[..|consumed| - 1])
    ensures !ok && expected in Tries(consumed) ==> ch.closed
    // It gives up only on the flag, a closed channel, the fifth wrong code, the end of what can
    // be read, or a wait that brought at most control frames; then nothing is lost.
    ensures !ok ==> stop(turn) || ch.closed || |Tries(consumed)| == 5 ||
                    consumed == Parse(old(ch.Incoming())).msgs || Silent(ch, last, poll(turn))
    ensures !ok && Silent(ch, last, poll(turn)) && !stop(turn) && !ch.closed && |Tries(consumed)| < 5 ==>
              Parse(old(ch.Incoming())) == After(consumed, Parse(ch.Incoming()))
    // The channel is handed over at a frame boundary, with nothing buffered or half sent.
    ensures ok ==> !ch.closed && ch.inbuf == [] && ch.outAcc == []
  {
    hide HoldsOneFrame, Parse, Tunnel, Clean, Clip, Concat, DataFrames, Tries, Replies, DataFrame;
    consumed := [];
    var parser := new MessageParser();
    var tries, step: nat := 0, 0;
    turn, last := 0, 0;
    Start(ch.Incoming(), DataFrames(ch.sent), expected);
    while !stop(step) && tries < MAX_TRIES
      invariant fresh(parser)
      invariant Conversing(parser, ch, expected, Parse(old(ch.Incoming())), old(DataFrames(ch.sent)), consumed)
      invariant tries == |Tries(consumed)| && expected !in Tries(consumed)
      invariant !ch.closed && ch.outAcc == []
      invariant step == turn && (old(ch.InStep()) ==> ch.InStep())
      decreases |ch.data| - ch.at, |ch.inbuf| - ch.inpos, |parser.Pending()|
    {
      ghost var coming := Coming(parser, ch);
      var m := TakeMessage(parser, ch);
      step := step + 1;
      turn := step;
      if m.Some? {
        ghost var before := consumed;
        AfterSnoc(consumed, m.value, Parse(Coming(parser, ch)));
        TriesSnoc(consumed, m.value);
        consumed := consumed + [m.value];
        assert consumed[..|consumed| - 1] == before;
        if m.value.kind != MSG_PAIR {
          assert Tries(before) + [] == Tries(before);
          continue;
        }
        var same, sentOk := Answer(ch, m.value.body, expected, Tries(before), tries, old(DataFrames(ch.sent)));
        tries := tries + 1;
        if !sentOk { return false, consumed, turn, last; }
        assert [] + ch.Incoming() == ch.Incoming();
        if same { return true, consumed, turn, last; }
        if tries >= MAX_TRIES { return false, consumed, turn, last; }
      } else {
        last := ch.at;
        WaitCarries(ch.data, ch.cuts, last, poll(step));
        var more := Receive(parser, ch, 256, poll(step));
        if !more {
          NothingLeft(Parse(old(ch.Incoming())), consumed, coming, ch, last, poll(step));
          return false, consumed, turn, last;
        }
      }
    }
    return false, consumed, turn, last;
  }

  /** The wait from `was` ended without data and without an error. */
  ghost predicate Silent(ch: WsChannel, was: nat, pollReady: bool)
    reads ch
  {
    NothingCame(ch, was, pollReady) && WaitOutcome(ch.data, ch.cuts, was, pollReady).Quiet?
  }

  lemma NothingLeft(before: Parsed, consumed: seq<Message>, coming: seq<byte>, ch: WsChannel, was: nat, pollReady: bool)
    requires ch.Valid() && NothingCame(ch, was, pollReady)
    requires Carries(ch.data, ch.cuts, was, WaitOutcome(ch.data, ch.cuts, was, pollReady))
    requires before == After(consumed, Parse(coming)) && coming == Tunnel(ch.data, ch.cuts, was)
    ensures consumed == before.msgs || Silent(ch, was, pollReady)
    ensures Silent(ch, was, pollReady) ==> before == After(consumed, Parse(ch.Incoming()))
  {
    hide WaitOutcome, Tunnel, Clean, HoldsOneFrame, Clip, Concat;
    if WaitOutcome(ch.data, ch.cuts, was, pollReady).Quiet? {
      assert ch.inbuf[ch.inpos..] == [];
      assert [] + ch.OnWire() == ch.OnWire();
    } else {
      assert Parse([]) == Parsed([], []);
      assert consumed + [] == consumed;
    }
  }

  lemma Start(incoming: seq<byte>, sent: seq<seq<byte>>, expected: seq<byte>)
    ensures Parse(incoming) == After([], Parse([] + incoming))
    ensures Tries([]) == [] && sent == sent + Replies([], expected)
    ensures HoldsOneFrame([] + [])
  {
    assert [] + incoming == incoming;
    assert [] + Parse(incoming).msgs == Parse(incoming).msgs;
  }

  // ----- Handover ----------------------------------------------------------

  /** The settings frame sent after pairing: the stored blob, or "{}" when there is none or it
      is too large. */
  method SendSettings(ch: WsChannel, stored: seq<byte>) returns (ok: bool)
    requires ch.Valid() && !ch.closed && ch.outAcc == []
    modifies ch`wire, ch`sent, ch`outAcc, ch`closed
    ensures ch.Valid() && (ok <==> !ch.closed) && (ok ==> ch.outAcc == [])
    ensures DataFrames(ch.sent) == old(DataFrames(ch.sent)) + [DataFrame(Settings(stored))]
  {
    hide DataFrames, DataFrame, HoldsOneFrame, Clip, Concat;
    ReplyIsData(ch.sent, Settings(stored));
    ok := SendMessage(ch, Settings(stored));
  }

  function Settings(stored: seq<byte>): Message {
    Message(MSG_CLIENT_SETTINGS, if stored == [] || |stored| > MAX_SETTINGS then [0x7b, 0x7d] else stored)
  }

  /** Reads messages until the first HELLO, with the server's own parser. */
  method ReadHello(parser: MessageParser, ch: WsChannel, poll: nat -> bool)
    returns (hello: Option<seq<byte>>, ghost skipped: seq<Message>, ghost turn: nat, ghost last: nat)
    requires parser.Valid() && ch.Valid()
    requires HoldsOneFrame(parser.Pending() + ch.inbuf[ch.inpos..])
    modifies parser, ch
    ensures parser.Valid() && ch.Valid() && (old(ch.InStep()) ==> ch.InStep())
    ensures DataFrames(ch.sent) == old(DataFrames(ch.sent))
    ensures forall m :: m in skipped ==> m.kind != 1
    ensures hello.Some? ==>
              Parse(old(Coming(parser, ch))) ==
              After(skipped, Before(Message(1, hello.value), Parse(Coming(parser, ch))))
    // It gives up only on a closed channel, the end of what can be read, or a wait that brought at
    // most control frames; then nothing is lost.
    ensures hello.None? ==> skipped <= Parse(old(Coming(parser, ch))).msgs
    ensures hello.None? ==> old(ch.closed) || ch.closed || skipped == Parse(old(Coming(parser, ch))).msgs ||
                            Silent(ch, last, poll(turn))
    ensures hello.None? && !old(ch.closed) && Silent(ch, last, poll(turn)) ==>
              Parse(old(Coming(parser, ch))) == After(skipped, Parse(ch.Incoming()))
  {
    hide HoldsOneFrame, Parse, Tunnel, Clean, Clip, Concat, DataFrames;
    skipped := [];
    turn, last := 0, 0;
    var step: nat := 0;
    assert [] + Parse(Coming(parser, ch)).msgs == Parse(Coming(parser, ch)).msgs;
    while true
      invariant parser.Valid() && ch.Valid() && (old(ch.InStep()) ==> ch.InStep())
      invariant HoldsOneFrame(parser.Pending() + ch.inbuf[ch.inpos..])
      invariant forall m :: m in skipped ==> m.kind != MSG_HELLO
      invariant !old(ch.closed) ==> !ch.closed
      invariant DataFrames(ch.sent) == old(DataFrames(ch.sent))
      invariant Parse(old(Coming(parser, ch))) == After(skipped, Parse(Coming(parser, ch)))
      decreases |ch.data| - ch.at, |ch.inbuf| - ch.inpos, |parser.Pending()|
    {
      var m := TakeMessage(parser, ch);
      if m.Some? {
        if m.value.kind == MSG_HELLO { return Some(m.value.body), skipped, turn, last; }
        AfterSnoc(skipped, m.value, Parse(Coming(parser, ch)));
        skipped := skipped + [m.value];
      } else {
        step := step + 1;
        turn, last := step, ch.at;
        ghost var coming := Coming(parser, ch);
        WaitCarries(ch.data, ch.cuts, last, poll(step));
        var more := Receive(parser, ch, 1024, poll(step));
        if !more {
          if !old(ch.closed) {
            NothingLeft(Parse(old(Coming(parser, ch))), skipped, coming, ch, last, poll(step));
          }
          return None, skipped, turn, last;
        }
      }
    }
  }

  /** Each code got its reply, the accepted one the settings after it, and nothing else was sent. */
  ghost predicate Answered(was: seq<seq<byte>>, now: seq<seq<byte>>, tries: seq<seq<byte>>, expected: seq<byte>,
                           stored: seq<byte>)
  {
    && |tries| <= MAX_TRIES
    && now == was + Replies(tries, expected) + if expected in tries then [DataFrame(Settings(stored))] else []
  }

  /** Pairing, settings and HELLO on one connection: the HELLO that starts the session is the
      first one after the accepted code, although a different parser read the code; whatever
      was sent in between was not lost in the private parser. */
  method Session(ch: WsChannel, expected: seq<byte>, stored: seq<byte>, stop: nat -> bool,
                 poll: nat -> bool)
    returns (hello: Option<seq<byte>>, ghost paired: seq<Message>, ghost skipped: seq<Message>, ghost turn: nat,
             ghost last: nat)
    requires ch.Valid() && !ch.closed && ch.inbuf == [] && ch.outAcc == []
    modifies ch
    ensures hello.Some? ==>
              && paired != [] && paired[|paired| - 1] == Message(20, expected)
              && expected !in Tries(paired[..|paired| - 1])
              && (forall m :: m in skipped ==> m.kind != 1)
              && paired + skipped + [Message(1, hello.value)] <= Parse(old(ch.Incoming())).msgs
    // Without a HELLO, the channel closed, or all there was to read has been read, or a wait
    // brought at most control frames, or pairing ended on the flag or the fifth wrong code.
    ensures hello.None? ==>
              ch.closed || paired + skipped == Parse(old(ch.Incoming())).msgs || Silent(ch, last, poll(turn)) ||
              (expected !in Tries(paired) && (stop(turn) || |Tries(paired)| == 5))
    ensures hello.Some? || !ch.closed ==>
              Answered(old(DataFrames(ch.sent)), DataFrames(ch.sent), Tries(paired), expected, stored)
  {
    hide HoldsOneFrame, Parse, Tunnel, Clean, Clip, Concat, DataFrames, Tries, Replies, DataFrame, WaitOutcome;
    skipped := [];
    var ok;
    ok, paired, turn, last := VerifyWebPin(ch, expected, stop, poll);
    if !ok {
      assert paired + [] == paired && DataFrames(ch.sent) + [] == DataFrames(ch.sent);
      return None, paired, skipped, turn, last;
    }
    Accepted(paired, expected);
    ok := SendSettings(ch, stored);
    if !ok { return None, paired, skipped, turn, last; }
    ghost var sent := DataFrames(ch.sent);
    var parser := new MessageParser();
    assert [] + ch.Incoming() == ch.Incoming();
    NothingHeld(ch.OnWire());
    hello, skipped, turn, last := ReadHello(parser, ch, poll);
    assert DataFrames(ch.sent) == sent;
  }

  lemma Accepted(paired: seq<Message>, expected: seq<byte>)
    requires paired != [] && paired[|paired| - 1] == Message(MSG_PAIR, expected)
    ensures expected in Tries(paired)
  {
  }
}

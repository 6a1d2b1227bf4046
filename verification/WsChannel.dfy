/** host/src/ws_channel.cpp: a byte channel carried in WebSocket frames over TLS.

    The peer's side of the connection is fixed up front (`data`, cut into records at `cuts`);
    `capacity` is how many bytes the link takes before a write fails. */
module WsChannels {
  import opened Bytes
  import opened WsFrames
  import opened WsStream

  function Clip(s: seq<byte>, n: nat): seq<byte> {
    if |s| <= n then s else s[..n]
  }

  lemma ClipAppend(s: seq<byte>, p: seq<byte>, n: nat)
    ensures Clip(Clip(s, n) + p, n) == Clip(s + p, n)
  {
    if |s| > n {
      assert (s[..n] + p)[..n] == s[..n] == (s + p)[..n];
    }
  }

  /** The bytes of frames sent without masking, in order. */
  function Wire(payloads: seq<seq<byte>>): seq<seq<byte>>
    requires forall p :: p in payloads ==> |p| <= MAX_FRAME
  {
    seq(|payloads|, i requires 0 <= i < |payloads| => Serialize(BinaryFrame(payloads[i])))
  }

  lemma WireAppend(a: seq<seq<byte>>, b: seq<seq<byte>>)
    requires forall p :: p in a + b ==> |p| <= MAX_FRAME
    ensures (forall p :: p in a ==> |p| <= MAX_FRAME) && (forall p :: p in b ==> |p| <= MAX_FRAME)
    ensures Wire(a + b) == Wire(a) + Wire(b)
  {
    hide Serialize;
    forall p | p in a || p in b ensures p in a + b {}
  }

  /** What was sent stays a prefix of everything there was to send, and is no longer. */
  lemma SentPrefix(before: seq<seq<byte>>, done: seq<seq<byte>>, rest: seq<seq<byte>>)
    requires forall p :: p in done + rest ==> |p| <= MAX_FRAME
    ensures (forall p :: p in done ==> |p| <= MAX_FRAME)
    ensures before <= before + Wire(done) <= before + Wire(done + rest)
    ensures |Concat(before + Wire(done))| <= |Concat(before + Wire(done + rest))|
  {
    WireAppend(done, rest);
    hide Wire, Concat;
    Assoc(before, Wire(done), Wire(rest));
    ConcatAppend(before + Wire(done), Wire(rest));
  }

  lemma OneMore(before: seq<seq<byte>>, done: seq<seq<byte>>, payload: seq<byte>)
    requires |payload| <= MAX_FRAME && forall p :: p in done ==> |p| <= MAX_FRAME
    ensures forall p :: p in done + [payload] ==> |p| <= MAX_FRAME
    ensures before + Wire(done + [payload]) == before + Wire(done) + [Serialize(BinaryFrame(payload))]
    ensures Wire(done + [payload]) != []
  {
    hide Serialize;
    WireAppend(done, [payload]);
    assert Wire([payload]) == [Serialize(BinaryFrame(payload))];
    Assoc(before, Wire(done), Wire([payload]));
  }

  /** What one send_all does on an open channel: it frames every complete payload of the
      accumulator and keeps the rest, unless a write fails or a length is refused. */
  ghost predicate SendEffect(capacity: nat, before: seq<seq<byte>>, acc: seq<byte>,
                             ok: bool, closed: bool, sent: seq<seq<byte>>, left: seq<byte>)
  {
    var cut := SplitAll(acc);
    var frames := Wire(cut.payloads);
    if frames == [] || |Concat(before + frames)| <= capacity
    then sent == before + frames && left == cut.rest && ok == !cut.bad && closed == cut.bad
    else !ok && closed && before < sent && sent <= before + frames && |Concat(sent)| > capacity
  }

  /** Half way through: `done` payloads are framed and sent, `acc` is still to be cut. */
  ghost predicate Sending(capacity: nat, before: seq<seq<byte>>, whole: seq<byte>,
                          done: seq<seq<byte>>, sent: seq<seq<byte>>, acc: seq<byte>)
  {
    && (forall q :: q in done ==> |q| <= MAX_FRAME)
    && SplitAll(whole) == SplitAll(acc).(payloads := done + SplitAll(acc).payloads)
    && sent == before + Wire(done)
    && (done != [] ==> |Concat(sent)| <= capacity)
  }

  lemma CutNow(acc: seq<byte>)
    ensures FirstCut(acc) ==
            if |acc| < 4 then Need
            else if GetU32(acc) == 0 || GetU32(acc) > MAX_FRAME then Refuse
            else if |acc| < 4 + GetU32(acc) as int then Need
            else Cut(acc[4..4 + GetU32(acc) as int], 4 + GetU32(acc) as int)
  {
  }

  lemma SendingStarts(capacity: nat, before: seq<seq<byte>>, acc: seq<byte>)
    ensures Sending(capacity, before, acc, [], before, acc)
  {
    assert before + Wire([]) == before;
    assert [] + SplitAll(acc).payloads == SplitAll(acc).payloads;
  }

  lemma SendingEnds(capacity: nat, before: seq<seq<byte>>, whole: seq<byte>,
                    done: seq<seq<byte>>, sent: seq<seq<byte>>, acc: seq<byte>)
    requires Sending(capacity, before, whole, done, sent, acc)
    requires !FirstCut(acc).Cut?
    ensures SendEffect(capacity, before, whole, FirstCut(acc).Need?, FirstCut(acc).Refuse?, sent, acc)
  {
    hide FirstCut, Serialize, Concat;
    assert done + [] == done;
  }

  lemma SendingStep(capacity: nat, before: seq<seq<byte>>, whole: seq<byte>,
                    done: seq<seq<byte>>, sent: seq<seq<byte>>, acc: seq<byte>, payload: seq<byte>, size: nat)
    requires Sending(capacity, before, whole, done, sent, acc)
    requires FirstCut(acc) == Cut(payload, size)
    ensures var now := sent + [Serialize(BinaryFrame(payload))];
            if |Concat(now)| <= capacity
            then Sending(capacity, before, whole, done + [payload], now, acc[size..])
            else SendEffect(capacity, before, whole, false, true, now, acc)
  {
    hide FirstCut, Serialize, Concat, Wire;
    var rest := SplitAll(acc[size..]).payloads;
    Assoc(done, [payload], rest);
    SentPrefix(before, done + [payload], rest);
    OneMore(before, done, payload);
  }

  /** The inbound buffer never holds more than one application frame. */
  predicate HoldsOneFrame(inbuf: seq<byte>) {
    inbuf == [] || (|inbuf| > 4 && |inbuf| - 4 <= MAX_FRAME && inbuf == Prefixed(inbuf[4..]))
  }

  /** What an outcome of reading one frame does to the channel. */
  ghost predicate Handled(o: Outcome, wasClosed: bool, wasSent: seq<seq<byte>>,
                          ok: bool, closed: bool, sent: seq<seq<byte>>, inbuf: seq<byte>)
  {
    && closed == (wasClosed || o.Closed?)
    && ok == (o.Quiet? || o.App?)
    && (o.App? ==> |o.payload| <= MAX_FRAME)
    && inbuf == (if o.App? then Prefixed(o.payload) else [])
    && sent == wasSent + (if o.Quiet? && o.reply != [] then [o.reply] else [])
  }

  /** The frames among those sent that carry data (the others are pongs). */
  function DataFrames(sent: seq<seq<byte>>): seq<seq<byte>> {
    if sent == [] then []
    else
      var last := sent[|sent| - 1];
      DataFrames(sent[..|sent| - 1]) + (if last != [] && last[0] == 0x82 then [last] else [])
  }

  lemma DataFramesSnoc(sent: seq<seq<byte>>, frame: seq<byte>)
    ensures DataFrames(sent + [frame]) ==
            DataFrames(sent) + (if frame != [] && frame[0] == 0x82 then [frame] else [])
  {
    assert (sent + [frame])[..|sent|] == sent;
  }

  /** A frame read leaves at most one application frame, and sends no data. */
  lemma HandledKeeps(data: seq<byte>, cuts: set<nat>, at: nat, wasSent: seq<seq<byte>>,
                     ok: bool, closed: bool, sent: seq<seq<byte>>, inbuf: seq<byte>)
    requires at <= |data| && Handled(ReadStep(data, cuts, at), false, wasSent, ok, closed, sent, inbuf)
    ensures DataFrames(sent) == DataFrames(wasSent) && HoldsOneFrame(inbuf)
    ensures ReadStep(data, cuts, at).App? <==> inbuf != []
  {
    var o := ReadStep(data, cuts, at);
    if o.App? {
      assert Prefixed(o.payload)[4..] == o.payload;
    } else if o.Quiet? && o.reply != [] {
      ReplyIsPong(data, cuts, at);
      DataFramesSnoc(wasSent, o.reply);
    } else {
      assert wasSent + [] == wasSent;
    }
  }

  /** What is buffered after an outcome. */
  function Buffered(o: Outcome): seq<byte> {
    if o.App? && |o.payload| <= MAX_FRAME then Prefixed(o.payload) else []
  }

  class WsChannel {
    const data: seq<byte>
    const cuts: set<nat>
    const capacity: nat
    var at: nat              // how far the TLS stream has been read
    var wire: seq<byte>      // every byte that reached the link
    ghost var sent: seq<seq<byte>>  // every frame handed to the TLS layer, in order

    var outAcc: seq<byte>
    var inbuf: seq<byte>
    var inpos: nat
    var closed: bool

    ghost predicate Valid()
      reads this
    {
      && at <= |data|
      && wire == Clip(Concat(sent), capacity)
      && inpos <= |inbuf|
      && (inpos == |inbuf| ==> inbuf == [])
      && HoldsOneFrame(inbuf)
    }

    /** Everything the application has yet to receive, buffered or still on the wire. */
    ghost function Incoming(): seq<byte>
      reads this
      requires Valid()
    {
      inbuf[inpos..] + OnWire()
    }

    ghost function OnWire(): seq<byte>
      reads this
      requires Valid()
    {
      if closed then [] else Tunnel(data, cuts, at)
    }

    /** The reader stands at a frame boundary of a stream it can read to its end. */
    ghost predicate InStep()
      reads this
      requires Valid()
    {
      closed || Clean(data, cuts, at)
    }

    /** SSL_pending: decrypted bytes of the current record are left. */
    predicate RecordOpen()
      reads this
    {
      Open(data, cuts, at)
    }

    constructor (data: seq<byte>, cuts: set<nat>, capacity: nat)
      ensures Valid() && !closed && this.data == data && this.cuts == cuts && this.capacity == capacity
      ensures at == 0 && sent == [] && outAcc == [] && inbuf == []
    {
      this.data, this.cuts, this.capacity := data, cuts, capacity;
      at, wire, sent := 0, [], [];
      outAcc, inbuf, inpos, closed := [], [], 0, false;
    }

    // ----- Sending ---------------------------------------------------------

    method SslWriteAll(p: seq<byte>) returns (ok: bool)
      requires Valid()
      modifies this`wire, this`sent
      ensures Valid() && sent == old(sent) + [p]
      ensures p != [] ==> (ok <==> |Concat(sent)| <= capacity)
    {
      ok := |wire| + |p| <= capacity;
      wire := if ok then wire + p else (wire + p)[..capacity];
      ClipAppend(Concat(sent), p, capacity);
      ConcatSnoc(sent, p);
      sent := sent + [p];
    }

    method SendBinary(payload: seq<byte>) returns (ok: bool)
      requires Valid() && |payload| <= MAX_FRAME
      modifies this`wire, this`sent
      ensures Valid() && sent == old(sent) + [Serialize(BinaryFrame(payload))]
      ensures ok <==> |Concat(sent)| <= capacity
    {
      var n := |payload|;
      var frame := [0x82];
      if n < 126 {
        frame := frame + [n];
      } else if n <= 0xffff {
        frame := frame + [126] + PutU16(n);
      } else {
        frame := frame + [127] + PutU64(n);
      }
      frame := frame + payload;
      assert frame == Serialize(BinaryFrame(payload));
      ok := SslWriteAll(frame);
    }

    /** Accumulates the outgoing bytes and frames every message that has become complete. */
    method SendAll(p: seq<byte>) returns (ok: bool)
      requires Valid()
      modifies this`wire, this`sent, this`outAcc, this`closed
      ensures Valid()
      ensures old(closed) ==> !ok && closed && sent == old(sent) && outAcc == old(outAcc)
      ensures !old(closed) ==>
                SendEffect(capacity, old(sent), old(outAcc) + p, ok, closed, sent, outAcc)
    {
      if closed { return false; }
      outAcc := outAcc + p;
      ok := FrameAll();
    }

    method FrameAll() returns (ok: bool)
      requires Valid() && !closed
      modifies this`wire, this`sent, this`outAcc, this`closed
      ensures Valid()
      ensures SendEffect(capacity, old(sent), old(outAcc), ok, closed, sent, outAcc)
    {
      hide Sending, SendEffect, Serialize, Concat, HoldsOneFrame, Clip, FirstCut;
      ghost var whole, done := outAcc, [];
      SendingStarts(capacity, sent, whole);
      while true
        invariant Valid() && !closed
        invariant Sending(capacity, old(sent), whole, done, sent, outAcc)
        decreases |outAcc|
      {
        CutNow(outAcc);
        ghost var cut := FirstCut(outAcc);
        if !cut.Cut? {
          SendingEnds(capacity, old(sent), whole, done, sent, outAcc);
        }
        if |outAcc| < 4 { return true; }
        var len := GetU32(outAcc);
        if len == 0 || len > MAX_FRAME {
          closed := true;
          return false;
        }
        if |outAcc| < 4 + len { return true; }
        var payload := outAcc[4..4 + len];
        SendingStep(capacity, old(sent), whole, done, sent, outAcc, payload, 4 + len);
        ok := SendBinary(payload);
        if !ok {
          closed := true;
          return;
        }
        outAcc := outAcc[4 + len..];
        done := done + [payload];
      }
    }

    // ----- Receiving -------------------------------------------------------

    method SslRead(n: nat) returns (r: seq<byte>)
      requires Valid()
      modifies this`at
      ensures Valid() && at == old(at) + ReadCount(data, cuts, old(at), n) && r == data[old(at)..at]
    {
      r := [];
      while |r| < n && at < |data|
        invariant Valid() && at == old(at) + |r| && |r| <= n && r == data[old(at)..at]
        invariant ReadCount(data, cuts, old(at), n) == |r| + ReadCount(data, cuts, at, n - |r|)
        decreases n - |r|
      {
        r := r + [data[at]];
        at := at + 1;
        if at in cuts { break; }
      }
    }

    /** The payload loop: as many SSL_reads as it takes. */
    method ReadPayload(plen: nat) returns (ok: bool, payload: seq<byte>)
      requires Valid()
      modifies this`at
      ensures Valid()
      ensures ok == (old(at) + plen <= |data|)
      ensures at == if ok then old(at) + plen else |data|
      ensures ok ==> payload == data[old(at)..at]
    {
      payload := [];
      while |payload| < plen
        invariant Valid() && at == old(at) + |payload| && |payload| <= plen && payload == data[old(at)..at]
        decreases plen - |payload|
      {
        var r := SslRead(plen - |payload|);
        if r == [] { return false, payload; }
        payload := payload + r;
      }
      ok := true;
    }

    /** Reads one frame: answers a ping, buffers a data payload behind a length prefix, and
        ignores everything else. */
    method ReadFrame() returns (ok: bool)
      requires Valid() && inbuf == [] && inpos == 0
      modifies this`at, this`closed, this`inbuf, this`wire, this`sent
      ensures Valid() && inpos == 0
      ensures var o := ReadStep(data, cuts, old(at));
              at == o.at && Handled(o, old(closed), old(sent), ok, closed, sent, inbuf)
    {
      hide ReadBody, HoldsOneFrame, Clip, Concat, GetU16, GetU64;
      var h := SslRead(2);
      if |h| != 2 { return false; }
      var b0, b1 := h[0], h[1];
      var short: byte := b1 % 0x80;
      var plen: nat := short;
      if short == 126 {
        var e := SslRead(2);
        if |e| != 2 { return false; }
        plen := GetU16(e);
      } else if short == 127 {
        var e := SslRead(8);
        if |e| != 8 { return false; }
        plen := GetU64(e);
      }
      ok := ReadBodyOf(b0, b1, plen);
    }

    method ReadBodyOf(b0: byte, b1: byte, plen: nat) returns (ok: bool)
      requires Valid() && inbuf == [] && inpos == 0
      modifies this`at, this`closed, this`inbuf, this`wire, this`sent
      ensures Valid() && inpos == 0
      ensures var o := ReadBody(data, cuts, old(at), b0, b1, plen);
              at == o.at && Handled(o, old(closed), old(sent), ok, closed, sent, inbuf)
    {
      hide Dispatch, HoldsOneFrame, Clip, Concat, Mask;
      if plen > MAX_FRAME { return false; }
      var masked := b1 >= 0x80;
      var key := [0, 0, 0, 0];
      if masked {
        key := SslRead(4);
        if |key| != 4 { return false; }
      }
      var payload;
      ok, payload := ReadPayload(plen);
      if !ok { return; }
      if masked {
        payload := Unmask(payload, key);
      }
      ok := Handle(b0 >= 0x80, b0 % 0x10, payload);
    }

    static method Unmask(masked: seq<byte>, key: seq<byte>) returns (payload: seq<byte>)
      requires |key| == 4
      ensures payload == Mask(masked, key)
    {
      payload := masked;
      for i := 0 to |masked|
        invariant |payload| == |masked|
        invariant payload[..i] == Mask(masked, key)[..i] && payload[i..] == masked[i..]
      {
        payload := payload[i := Xor(payload[i], key[i % 4])];
      }
    }

    method Handle(fin: bool, op: opcode, payload: seq<byte>) returns (ok: bool)
      requires Valid() && inbuf == [] && inpos == 0 && |payload| <= MAX_FRAME
      modifies this`closed, this`inbuf, this`wire, this`sent
      ensures Valid() && inpos == 0
      ensures Handled(Dispatch(fin, op, payload, at), old(closed), old(sent), ok, closed, sent, inbuf)
    {
      if op == 8 {
        closed := true;
        return false;
      }
      if op == 9 {
        if |payload| < 126 {
          ghost var before := sent;
          var _ := SslWriteAll([0x8a, |payload|]);
          if payload != [] {
            var _ := SslWriteAll(payload);
            ConcatSnoc(before + [[0x8a, |payload|]], payload);
          }
          ConcatSnoc(before, [0x8a, |payload|]);
          ConcatSnoc(before, Pong(payload));
          Assoc(Concat(before), [0x8a, |payload|], payload);
          sent := before + [Pong(payload)];  // the two writes are one frame
        }
        return true;
      }
      if op == 10 { return true; }
      if op != 2 && op != 0 { return true; }
      if !fin { return false; }
      if payload == [] { return true; }
      var len := |payload|;
      inbuf := PutU32(len) + payload;
      assert inbuf[4..] == payload;
      return true;
    }

    /** One turn of the receive loops. */
    method PullFrame() returns (ok: bool)
      requires Valid() && !closed && inbuf == [] && inpos == 0
      modifies this`at, this`closed, this`inbuf, this`wire, this`sent
      ensures Valid() && inpos == 0
      ensures var o := ReadStep(data, cuts, old(at));
              at == o.at && closed == o.Closed? && ok == (o.Quiet? || o.App?) && inbuf == Buffered(o)
      ensures inbuf != [] <==> ReadStep(data, cuts, old(at)).App?
      ensures DataFrames(sent) == old(DataFrames(sent))
    {
      hide ReadStep, Prefixed, Clip, Concat, DataFrames;
      ok := ReadFrame();
      HandledKeeps(data, cuts, old(at), old(sent), ok, closed, sent, inbuf);
    }

    /** Returns what WaitOutcome says: yes exactly when it brings application data, which is then
        buffered. Unless reading fails, nothing but control frames is skipped. */
    method WaitReadable(pollReady: bool) returns (ok: bool)
      requires Valid()
      modifies this`at, this`closed, this`inbuf, this`inpos, this`wire, this`sent
      ensures Valid()
      ensures old(closed) || old(inbuf) != [] ==>
                ok == !old(closed) && closed == old(closed) && inbuf == old(inbuf) && inpos == old(inpos) &&
                at == old(at) && sent == old(sent)
      ensures !old(closed) && old(inbuf) == [] ==>
                var o := WaitOutcome(data, cuts, old(at), pollReady);
                at == o.at && closed == o.Closed? && ok == o.App? && inbuf == Buffered(o) && inpos == 0
      ensures ok ==> !closed && inbuf[inpos..] != [] && Incoming() == old(Incoming())
      ensures old(InStep()) ==> InStep() && Incoming() == old(Incoming())
      ensures DataFrames(sent) == old(DataFrames(sent))
    {
      if closed { return false; }
      if inpos < |inbuf| { return true; }
      hide ReadStep, HoldsOneFrame, Clip, Concat, DataFrames, Tunnel, Clean, Pull, PullOpen, Prefixed;
      WaitCarries(data, cuts, at, pollReady);
      ok := DrainOpenRecord();
      if ok && inbuf == [] && pollReady {
        ok := PullOnWake();
      } else {
        ok := ok && inbuf != [];
      }
      Kept(data, cuts, old(at), WaitOutcome(data, cuts, old(at), pollReady));
    }

    /** Decrypted frames first; stops as soon as application data is buffered. */
    method DrainOpenRecord() returns (ok: bool)
      requires Valid() && !closed && inbuf == [] && inpos == 0
      modifies this`at, this`closed, this`inbuf, this`wire, this`sent
      ensures Valid() && inpos == 0
      ensures var o := PullOpen(data, cuts, old(at));
              && at == o.at && closed == o.Closed? && ok == (o.Quiet? || o.App?) && inbuf == Buffered(o)
              && (o.App? <==> inbuf != [])
      ensures DataFrames(sent) == old(DataFrames(sent))
    {
      hide ReadStep, HoldsOneFrame, Clip, Concat, DataFrames, Prefixed;
      while RecordOpen()
        invariant Valid() && inpos == 0 && inbuf == [] && !closed
        invariant PullOpen(data, cuts, at) == PullOpen(data, cuts, old(at))
        invariant DataFrames(sent) == old(DataFrames(sent))
        decreases |data| - at
      {
        ok := PullFrame();
        if !ok || inbuf != [] { return; }
      }
      ok := true;
    }

    /** After a wake-up: frames are read until application data comes or the record ends. */
    method PullOnWake() returns (ok: bool)
      requires Valid() && !closed && inbuf == [] && inpos == 0
      modifies this`at, this`closed, this`inbuf, this`wire, this`sent
      ensures Valid() && inpos == 0
      ensures var o := Pull(data, cuts, old(at));
              && at == o.at && closed == o.Closed? && ok == o.App? && inbuf == Buffered(o)
              && (o.App? <==> inbuf != [])
      ensures DataFrames(sent) == old(DataFrames(sent))
    {
      hide ReadStep, HoldsOneFrame, Clip, Concat, DataFrames, Prefixed;
      while true
        invariant Valid() && inpos == 0 && inbuf == [] && !closed
        invariant Pull(data, cuts, at) == Pull(data, cuts, old(at))
        invariant DataFrames(sent) == old(DataFrames(sent))
        decreases |data| - at
      {
        ok := PullFrame();
        if !ok || inbuf != [] { return; }
        if !RecordOpen() { return false; }  // a control-only wake
      }
    }

    /** Hands over the next bytes, reading on for them if none are buffered. Whatever it hands
        over comes from the front of the incoming stream and leaves exactly the rest. */
    method Recv(n: nat) returns (got: Option<seq<byte>>)
      requires Valid() && n > 0
      modifies this`at, this`closed, this`inbuf, this`inpos, this`wire, this`sent
      ensures Valid()
      ensures old(closed) ==> got.None? && closed && at == old(at) && inbuf == old(inbuf) && inpos == old(inpos)
      ensures !old(closed) && old(inbuf) != [] ==>
                got.Some? && at == old(at) && sent == old(sent) && got.value + inbuf[inpos..] == old(inbuf[inpos..])
      ensures !old(closed) && old(inbuf) == [] ==>
                var o := Pull(data, cuts, old(at));
                && at == o.at && closed == o.Closed? && got.Some? == o.App?
                && (if got.Some? then got.value + inbuf[inpos..] == Buffered(o) else inbuf == [])
      ensures got.Some? ==> !closed && 0 < |got.value| <= n && (|got.value| < n ==> inbuf == [])
      ensures got.Some? ==> old(Incoming()) == got.value + Incoming()
      ensures old(InStep()) ==> InStep() && (got.None? && !old(closed) ==> Incoming() == old(Incoming()))
      ensures DataFrames(sent) == old(DataFrames(sent))
    {
      if closed { return None; }
      hide ReadStep, HoldsOneFrame, Clip, Concat, DataFrames, Tunnel, Clean, Prefixed;
      if inpos >= |inbuf| {
        inbuf, inpos := [], 0;
        PullCarries(data, cuts, at);
        Kept(data, cuts, at, Pull(data, cuts, at));
        while inbuf == []
          invariant Valid() && inpos == 0 && !closed
          invariant if inbuf == [] then Pull(data, cuts, at) == Pull(data, cuts, old(at))
                    else Pull(data, cuts, old(at)).App? && at == Pull(data, cuts, old(at)).at &&
                         inbuf == Buffered(Pull(data, cuts, old(at)))
          invariant DataFrames(sent) == old(DataFrames(sent))
          decreases |data| - at, inbuf == []
        {
          var ok := PullFrame();
          if !ok { return None; }
          if inbuf == [] && !RecordOpen() { return None; }
        }
        assert inbuf[inpos..] == inbuf;
      }
      var chunk := Take(n);
      got := Some(chunk);
    }

    /** The copy out of the buffer. */
    method Take(n: nat) returns (chunk: seq<byte>)
      requires Valid() && n > 0 && inpos < |inbuf|
      modifies this`inbuf, this`inpos
      ensures Valid() && 0 < |chunk| <= n && (|chunk| < n ==> inbuf == [])
      ensures chunk + inbuf[inpos..] == old(inbuf[inpos..])
      ensures old(Incoming()) == chunk + Incoming()
    {
      hide Tunnel, Clip, Concat, Prefixed;
      var avail := |inbuf| - inpos;
      var take := if avail < n then avail else n;
      chunk := inbuf[inpos..inpos + take];
      assert chunk + inbuf[inpos + take..] == inbuf[inpos..];
      Assoc(chunk, inbuf[inpos + take..], OnWire());
      inpos := inpos + take;
      if inpos >= |inbuf| {
        inbuf, inpos := [], 0;
      }
    }
  }

  /** Bytes carried by an outcome are what is buffered and what comes after it. */
  lemma Kept(data: seq<byte>, cuts: set<nat>, at: nat, o: Outcome)
    requires at <= |data| && o.at <= |data| && (o.App? ==> 0 < |o.payload| <= MAX_FRAME)
    requires Carries(data, cuts, at, o)
    ensures !o.Dead? ==>
              Tunnel(data, cuts, at) == Buffered(o) + (if o.Closed? then [] else Tunnel(data, cuts, o.at))
    ensures o.Dead? && Clean(data, cuts, at) ==>
              Tunnel(data, cuts, at) == [] == Tunnel(data, cuts, o.at) && Clean(data, cuts, o.at)
    ensures Clean(data, cuts, at) && !o.Closed? ==> Clean(data, cuts, o.at)
    ensures HoldsOneFrame(Buffered(o)) && (o.App? <==> Buffered(o) != [])
    ensures forall s: seq<byte> {:trigger [] + s} :: [] + s == s
  {
    EndIsDead(data, cuts);
    if o.App? { assert Prefixed(o.payload)[4..] == o.payload; }
  }
}

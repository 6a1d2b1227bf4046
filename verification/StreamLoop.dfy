/** The frame loop of host/src/stream_daemon.cpp (run_until): which captures reach the encoder,
    which live parameters are in force, and which packets reach the client; with the control
    messages read in between (poll_control in host/src/transport_server.cpp). */
module StreamLoop {
  import opened Bytes
  import opened Framing
  import opened SendBacklog

  /** A packet, numbered in encoder output order. */
  datatype Packet = Packet(index: nat, keyframe: bool, size: nat)

  /** What the encoder gives for a packet. */
  datatype Output = Output(keyframe: bool, size: nat)

  // ----- Control messages --------------------------------------------------

  const MSG_PING: byte := 4
  const MSG_BYE: byte := 6
  const MSG_KEYFRAME_REQUEST: byte := 16
  const MSG_STREAM_PARAMS: byte := 17

  datatype Params = Params(fps: u32, kbps: u32, audio: byte)

  /** The request in a message, if it is one and complete. */
  function ParamsOf(m: Message): Option<Params> {
    if m.kind != MSG_STREAM_PARAMS || |m.body| < 9 then None
    else Some(Params(GetU32(m.body), GetU32(m.body[4..]), m.body[8]))
  }

  /** A request on the wire: frame rate, bitrate, audio; anything shorter is none. */
  lemma ParamsRead(fps: u32, kbps: u32, audio: byte, rest: seq<byte>, kind: byte, body: seq<byte>)
    ensures ParamsOf(Message(17, PutU32(fps) + PutU32(kbps) + [audio] + rest)) == Some(Params(fps, kbps, audio))
    ensures ParamsOf(Message(kind, body)).Some? <==> kind == 17 && |body| >= 9
  {
    hide PutU32, GetU32;
    var b := PutU32(fps) + PutU32(kbps) + [audio] + rest;
    U32RoundTrip(fps, PutU32(kbps) + [audio] + rest);
    U32RoundTrip(kbps, [audio] + rest);
    assert b == PutU32(fps) + (PutU32(kbps) + [audio] + rest);
    assert b[4..] == PutU32(kbps) + ([audio] + rest);
  }

  /** A Bye ends the reading of control messages. */
  function UntilBye(ms: seq<Message>): (r: seq<Message>)
    ensures r <= ms && forall m <- r :: m.kind != MSG_BYE
    ensures |r| < |ms| ==> ms[|r|].kind == MSG_BYE
  {
    if ms == [] || ms[0].kind == MSG_BYE then [] else [ms[0]] + UntilBye(ms[1..])
  }

  /** The newest request in a list of messages. */
  function LastParams(ms: seq<Message>): Option<Params> {
    if ms == [] then None
    else
      var last := ParamsOf(ms[|ms| - 1]);
      if last.Some? then last else LastParams(ms[..|ms| - 1])
  }

  predicate Contains(ms: seq<Message>, kind: byte) {
    exists m <- ms :: m.kind == kind
  }

  lemma {:induction false} LastParamsMeaning(ms: seq<Message>, p: Params)
    ensures LastParams(ms) == Some(p) <==>
            exists i: nat | i < |ms| :: ParamsOf(ms[i]) == Some(p) && forall j | i < j < |ms| :: ParamsOf(ms[j]) == None
  {
    if ms != [] {
      var n := |ms| - 1;
      LastParamsMeaning(ms[..n], p);
      if ParamsOf(ms[n]) == Some(p) {
        assert ParamsOf(ms[n]) == Some(p) && forall j | n < j < |ms| :: ParamsOf(ms[j]) == None;
      }
    }
  }

  lemma {:induction false} LaterParamsWin(a: seq<Message>, b: seq<Message>)
    ensures LastParams(a + b) == if LastParams(b).Some? then LastParams(b) else LastParams(a)
    ensures forall k :: Contains(a + b, k) <==> Contains(a, k) || Contains(b, k)
  {
    if b == [] {
      assert a + b == a;
    } else {
      hide ParamsOf;
      var n := |b| - 1;
      LaterParamsWin(a, b[..n]);
      assert (a + b)[..|a| + n] == a + b[..n];
      forall k ensures Contains(a + b, k) <==> Contains(a, k) || Contains(b, k) {
        ContainsEither(a, b, k);
      }
    }
  }

  lemma ContainsEither(a: seq<Message>, b: seq<Message>, kind: byte)
    ensures Contains(a + b, kind) <==> Contains(a, kind) || Contains(b, kind)
  {
    if Contains(a, kind) {
      var m :| m in a && m.kind == kind;
      assert m in a + b;
    }
    if Contains(b, kind) {
      var m :| m in b && m.kind == kind;
      assert m in a + b;
    }
  }

  lemma SnocMessage(ms: seq<Message>, i: nat)
    requires i < |ms|
    ensures LastParams(ms[..i + 1]) == if ParamsOf(ms[i]).Some? then ParamsOf(ms[i]) else LastParams(ms[..i])
    ensures forall k :: Contains(ms[..i + 1], k) <==> Contains(ms[..i], k) || ms[i].kind == k
  {
    assert ms[..i + 1] == ms[..i] + [ms[i]];
    LaterParamsWin(ms[..i], [ms[i]]);
    assert LastParams([ms[i]]) == ParamsOf(ms[i]) by { assert [ms[i]][..0] == []; }
    assert ms[i] in [ms[i]];
  }

  lemma BeforeFirstBye(ms: seq<Message>, i: nat)
    requires i <= |ms| && !Contains(ms[..i], MSG_BYE) && (i < |ms| ==> ms[i].kind == MSG_BYE)
    ensures UntilBye(ms) == ms[..i]
  {
    forall k | 0 <= k < i ensures ms[k].kind != MSG_BYE {
      assert ms[..i][k] == ms[k];
    }
    hide Contains;
    ByeIsFirst(ms, i);
  }

  lemma {:induction false} ByeIsFirst(ms: seq<Message>, i: nat)
    requires i <= |ms| && forall k :: 0 <= k < i ==> ms[k].kind != MSG_BYE
    requires i < |ms| ==> ms[i].kind == MSG_BYE
    ensures UntilBye(ms) == ms[..i]
  {
    if i > 0 {
      ByeIsFirst(ms[1..], i - 1);
      assert ms[..i] == [ms[0]] + ms[1..][..i - 1];
    }
  }

  // ----- The loop ----------------------------------------------------------

  /** One call of poll_control: nothing to read, a broken connection, or messages; `pongsOk` says
      whether the replies to pings get through. */
  datatype Poll = Quiet | Broken | Read(msgs: seq<Message>, pongsOk: bool)

  /** What one turn of the loop meets: whether a capture is there, the backlog reported, whether
      an encoder reopens, what it would output, after how many packets a send fails, and the
      control messages at the end. */
  datatype Turn = Turn(captured: bool, pending: nat, reopens: bool, output: seq<Output>, sendsOk: nat, poll: Poll)

  /** One taking of the requests: what was heard since the one before, and whether a new encoder
      would open. */
  datatype Take = Take(msgs: seq<Message>, reopens: bool)

  /** The parameters one taking leaves in force; a zero asks for no change, and a word from 2^31 on
      is taken for a negative number. */
  function Wanted(fps: int, kbps: int, t: Take): (int, int) {
    var want := LastParams(t.msgs);
    if !t.reopens || want.None? then (fps, kbps)
    else (if want.value.fps > 0 then Signed32(want.value.fps) else fps,
          if want.value.kbps > 0 then Signed32(want.value.kbps) else kbps)
  }

  /** The parameters in force after a run: each taking in turn applied its newest request. */
  function InForce(fps: int, kbps: int, takes: seq<Take>): (int, int) {
    if takes == [] then (fps, kbps)
    else
      var before := InForce(fps, kbps, takes[..|takes| - 1]);
      Wanted(before.0, before.1, takes[|takes| - 1])
  }

  /** Everything the takings were about. */
  function Taken(takes: seq<Take>): seq<Message> {
    if takes == [] then [] else Taken(takes[..|takes| - 1]) + takes[|takes| - 1].msgs
  }

  lemma TakeMore(fps: int, kbps: int, takes: seq<Take>, t: Take)
    ensures Taken(takes + [t]) == Taken(takes) + t.msgs
    ensures InForce(fps, kbps, takes + [t]) == Wanted(InForce(fps, kbps, takes).0, InForce(fps, kbps, takes).1, t)
  {
    assert (takes + [t])[..|takes|] == takes;
  }

  /** What one poll hears. */
  function Heard(poll: Poll): seq<Message> {
    if poll.Read? then UntilBye(poll.msgs) else []
  }

  /** Whether one poll ends the connection: it broke, the client said Bye, or a pong failed. */
  predicate PollBreaks(poll: Poll) {
    match poll
    case Quiet => false
    case Broken => true
    case Read(msgs, pongsOk) => Contains(msgs, MSG_BYE) || (!pongsOk && Contains(UntilBye(msgs), MSG_PING))
  }

  /** Kind 6 always ends it, kind 4 if the pongs fail and no 6 comes first, and nothing else does. */
  lemma PollBreaksMeaning(msgs: seq<Message>, pongsOk: bool)
    ensures PollBreaks(Read(msgs, pongsOk)) <==>
            exists i: nat | i < |msgs| :: msgs[i].kind == 6 || (msgs[i].kind == 4 && !pongsOk)
    ensures PollBreaks(Broken) && !PollBreaks(Quiet)
  {
    var heard := UntilBye(msgs);
    if i: nat :| i < |msgs| && (msgs[i].kind == 6 || (msgs[i].kind == 4 && !pongsOk)) {
      assert msgs[i] in msgs;
      if |heard| <= i {
        assert msgs[|heard|] in msgs;
      } else {
        assert heard[i] == msgs[i] && heard[i] in heard;
      }
    }
    if PollBreaks(Read(msgs, pongsOk)) {
      if Contains(msgs, MSG_BYE) {
        var m :| m in msgs && m.kind == 6;
      } else {
        var m :| m in heard && m.kind == 4;
        assert m in msgs;
      }
    }
  }

  /** A request takes effect field by field where it is not zero, as a signed number, if a new
      encoder opens. */
  lemma WantedMeaning(fps: int, kbps: int, a: u32, b: u32, reopens: bool)
    ensures var now := Wanted(fps, kbps, Take([Message(17, PutU32(a) + PutU32(b) + [0])], reopens));
            if !reopens then now == (fps, kbps)
            else now == (if a == 0 then fps else if a < 2147483648 then a else a - 4294967296,
                         if b == 0 then kbps else if b < 2147483648 then b else b - 4294967296)
  {
    hide PutU32, ParamsOf;
    var m := Message(17, PutU32(a) + PutU32(b) + [0]);
    assert PutU32(a) + PutU32(b) + [0] + [] == PutU32(a) + PutU32(b) + [0];
    ParamsRead(a, b, 0, [], 17, m.body);
    assert [m][|[m]| - 1] == m;
  }

  function Min(a: nat, b: nat): nat {
    if a < b then a else b
  }

  /** Whether one turn ends the connection. */
  predicate LinkBreaks(t: Turn, kept: bool) {
    (kept && t.sendsOk < |t.output|) || PollBreaks(t.poll)
  }

  class StreamDaemon {
    const fps0: int
    const kbps0: int
    var connected: bool
    var dropping: bool
    var fps: int
    var kbps: int
    var limit: nat
    var latchedParams: Option<Params>
    var latchedKey: bool
    var saidBye: bool
    var sent: seq<Packet>
    ghost var heard: seq<Message>          // control messages since the requests were last taken
    ghost var takes: seq<Take>             // the takings so far
    ghost var everHeard: seq<Message>      // all control messages of the run
    ghost var encoded: seq<Packet>         // everything the encoder produced
    ghost var samples: seq<Sample>         // every backlog sample taken
    ghost var fed: nat                     // captures given to the encoder
    ghost var skipped: nat                 // captures skipped before the encoder

    ghost predicate Valid()
      reads this
    {
      && (forall i :: 0 <= i < |encoded| ==> encoded[i].index == i)
      && sent <= encoded
      && (connected ==> sent == encoded)
      && dropping == Dropping(samples)
      && limit == BacklogLimit(kbps)
      && |samples| == fed + skipped
      && Latched()
    }

    /** The latches hold the newest request heard since the last taking, and whether a keyframe
        was asked for; no message is in two takings or in none; and the parameters in force are
        those the takings left. */
    ghost predicate Latched()
      reads this
    {
      && latchedParams == LastParams(heard) && latchedKey == Contains(heard, MSG_KEYFRAME_REQUEST)
      && Taken(takes) + heard == everHeard
      && (fps, kbps) == InForce(fps0, kbps0, takes)
    }

    constructor (fps: int, kbps: int)
      ensures Valid() && connected && sent == [] && encoded == [] && fed == skipped == 0 && heard == []
      ensures this.fps0 == fps && this.kbps0 == kbps && !dropping && !saidBye && samples == [] && takes == []
    {
      connected, dropping, saidBye := true, false, false;
      fps0, kbps0 := fps, kbps;
      this.fps, this.kbps, limit := fps, kbps, BacklogLimit(kbps);
      latchedParams, latchedKey, sent := None, false, [];
      heard, takes, everHeard, encoded, samples, fed, skipped := [], [], [], [], [], 0, 0;
    }

    /** Hears every message up to a Bye. The link survives unless it broke, a pong failed, or the
        client said Bye. */
    method PollControl(poll: Poll)
      requires Valid()
      modifies this`connected, this`latchedParams, this`latchedKey, this`saidBye, this`heard, this`everHeard
      ensures Valid()
      ensures !old(connected) ==> !connected && heard == old(heard) && saidBye == old(saidBye)
      ensures old(connected) ==>
                && heard == old(heard) + Heard(poll) && connected == !PollBreaks(poll)
                && saidBye == (old(saidBye) || (poll.Read? && Contains(poll.msgs, MSG_BYE)))
    {
      hide LastParams, Contains, UntilBye, Taken, InForce;
      assert heard + [] == heard;
      if !connected || poll.Quiet? { return; }
      if poll.Broken? {
        connected := false;
        return;
      }
      Dispatch(poll.msgs, poll.pongsOk);
    }

    method Dispatch(msgs: seq<Message>, pongsOk: bool)
      requires connected && Latched()
      modifies this`connected, this`latchedParams, this`latchedKey, this`saidBye, this`heard, this`everHeard
      ensures Latched() && heard == old(heard) + UntilBye(msgs)
      ensures saidBye == (old(saidBye) || Contains(msgs, MSG_BYE))
      ensures connected == (!Contains(msgs, MSG_BYE) && (pongsOk || !Contains(UntilBye(msgs), MSG_PING)))
    {
      hide LastParams, Contains, ParamsOf, UntilBye, Taken, InForce;
      Unheard(msgs);
      ghost var was := heard;
      assert was + msgs[..0] == was;
      for i := 0 to |msgs|
        invariant Latched() && heard == was + msgs[..i]
        invariant !Contains(msgs[..i], MSG_BYE) && saidBye == old(saidBye)
        invariant connected == (pongsOk || !Contains(msgs[..i], MSG_PING))
      {
        var m := msgs[i];
        SnocMessage(msgs, i);
        if m.kind == MSG_BYE {
          BeforeFirstBye(msgs, i);
          ByeAt(msgs, i);
          saidBye, connected := true, false;
          return;
        }
        NotYet(m);
        HearOne(was, msgs, i);
        if m.kind == MSG_PING {
          if !pongsOk { connected := false; }
        } else if m.kind == MSG_STREAM_PARAMS {
          if ParamsOf(m).Some? { latchedParams := ParamsOf(m); }
        } else if m.kind == MSG_KEYFRAME_REQUEST {
          latchedKey := true;
        }
        Assoc(Taken(takes), heard, [m]);
        assert was + msgs[..i + 1] == heard + [m];
        heard, everHeard := heard + [m], everHeard + [m];
      }
      assert msgs[..|msgs|] == msgs;
      BeforeFirstBye(msgs, |msgs|);
    }

    /** Takes the newest request and the keyframe request, before encoding. A reopened encoder
        moves the backlog limit, a failed reopen keeps the old values, and a zero asks for no
        change. */
    method TakeRequests(reopens: bool) returns (keyframe: bool)
      requires Latched() && limit == BacklogLimit(kbps)
      modifies this`fps, this`kbps, this`limit, this`latchedParams, this`latchedKey, this`heard, this`takes
      ensures Latched() && limit == BacklogLimit(kbps) && heard == []
      ensures keyframe == Contains(old(heard), 16)
      ensures takes == old(takes) + [Take(old(heard), reopens)]
      ensures (fps, kbps) == Wanted(old(fps), old(kbps), Take(old(heard), reopens))
    {
      hide BacklogLimit, Taken, InForce, LastParams;
      TakeMore(fps0, kbps0, takes, Take(heard, reopens));
      if latchedParams.Some? {
        var p := latchedParams.value;
        latchedParams := None;
        var newFps := if p.fps > 0 then Signed32(p.fps) else fps;
        var newKbps := if p.kbps > 0 then Signed32(p.kbps) else kbps;
        if newFps != fps || newKbps != kbps {
          if reopens {
            fps, kbps := newFps, newKbps;
            limit := BacklogLimit(kbps);
          }
        }
      }
      keyframe := latchedKey;
      latchedKey := false;
      takes, heard := takes + [Take(heard, reopens)], [];
      assert Taken(takes) + [] == everHeard;
      NothingHeard();
    }

    /** Sends the packets of one frame; a failed write drops the connection and the rest. */
    method SendPackets(packets: seq<Packet>, sendsOk: nat)
      requires connected
      modifies this`sent, this`connected
      ensures connected == (sendsOk >= |packets|)
      ensures sent == old(sent) + packets[..if sendsOk < |packets| then sendsOk else |packets|]
    {
      var i := 0;
      while i < |packets|
        invariant connected && i <= |packets| && i <= sendsOk && sent == old(sent) + packets[..i]
        decreases |packets| - i
      {
        if i == sendsOk {
          connected := false;
          return;
        }
        sent := sent + [packets[i]];
        assert packets[..i + 1] == packets[..i] + [packets[i]];
        i := i + 1;
      }
      assert packets[..|packets|] == packets;
    }

    /** One turn. A capture is either skipped before the encoder or encoded and sent; packets
        that exist are never discarded while the link is up. */
    method Step(t: Turn)
      requires Valid() && connected
      modifies this
      ensures Valid()
      ensures old(encoded) <= encoded && old(sent) <= sent
      ensures samples == old(samples) + (if t.captured then [Sample(t.pending, old(limit))] else [])
      ensures !t.captured ==> dropping == old(dropping)
      ensures fed == old(fed) + (if t.captured && !dropping then 1 else 0)
      ensures skipped == old(skipped) + (if t.captured && dropping then 1 else 0)
      ensures encoded == old(encoded) + (if t.captured && !dropping then Numbered(t.output, |old(encoded)|) else [])
      ensures takes == old(takes) + (if t.captured && !dropping then [Take(old(heard), t.reopens)] else [])
      ensures |sent| == |old(sent)| + (if t.captured && !dropping then Min(t.sendsOk, |t.output|) else 0)
      ensures connected == !LinkBreaks(t, t.captured && !dropping)
      ensures connected ==> heard == (if t.captured && !dropping then [] else old(heard)) + Heard(t.poll)
    {
      hide Dropping, ShouldSkip, BacklogLimit, LastParams, Contains, UntilBye, Taken, InForce, Wanted, PollBreaks, Heard;
      if !t.captured {
        PollControl(t.poll);
        assert encoded == old(encoded) + [] && samples == old(samples) + [] && takes == old(takes) + [];
        return;
      }
      SampleTaken(samples, Sample(t.pending, limit));
      samples := samples + [Sample(t.pending, limit)];
      dropping := ShouldSkip(t.pending, limit, dropping);
      if dropping {
        skipped := skipped + 1;
        PollControl(t.poll);
        assert encoded == old(encoded) + [] && takes == old(takes) + [];
        return;
      }
      EncodeAndSend(t);
      PollControl(t.poll);
    }

    method EncodeAndSend(t: Turn)
      requires connected && |samples| == fed + 1 + skipped && Latched()
      requires dropping == Dropping(samples) && limit == BacklogLimit(kbps)
      requires (forall i :: 0 <= i < |encoded| ==> encoded[i].index == i) && sent == encoded
      modifies this`fps, this`kbps, this`limit, this`latchedParams, this`latchedKey, this`heard, this`takes,
               this`sent, this`connected, this`encoded, this`fed
      ensures Valid() && fed == old(fed) + 1
      ensures takes == old(takes) + [Take(old(heard), t.reopens)] && heard == []
      ensures encoded == old(encoded) + Numbered(t.output, |old(encoded)|) && old(sent) <= sent
      ensures |sent| == |old(sent)| + Min(t.sendsOk, |t.output|) && connected == (t.sendsOk >= |t.output|)
    {
      hide Dropping, BacklogLimit, LastParams, Contains, Taken, InForce, Wanted;
      fed := fed + 1;
      var forced := TakeRequests(t.reopens);
      var packets := Numbered(t.output, |sent|);
      encoded := encoded + packets;
      SendPackets(packets, t.sendsOk);
      assert packets[..|packets|] == packets;
      assert sent <= encoded;
    }
  }

  lemma Unheard(msgs: seq<Message>)
    ensures !Contains(msgs[..0], MSG_BYE) && !Contains(msgs[..0], MSG_PING)
  {
  }

  lemma ByeAt(msgs: seq<Message>, i: nat)
    requires i < |msgs| && msgs[i].kind == MSG_BYE
    ensures Contains(msgs, MSG_BYE)
  {
    assert msgs[i] in msgs;
  }

  lemma NothingHeard()
    ensures LastParams([]) == None && !Contains([], MSG_KEYFRAME_REQUEST)
  {
  }

  lemma NotYet(m: Message)
    ensures ParamsOf(m).Some? ==> m.kind == MSG_STREAM_PARAMS
  {
  }

  /** Hearing one message more. */
  lemma HearOne(was: seq<Message>, msgs: seq<Message>, i: nat)
    requires i < |msgs|
    ensures var now := was + msgs[..i + 1]; var before := was + msgs[..i];
            && LastParams(now) == (if ParamsOf(msgs[i]).Some? then ParamsOf(msgs[i]) else LastParams(before))
            && forall k :: Contains(now, k) <==> Contains(before, k) || msgs[i].kind == k
  {
    var now := was + msgs[..i + 1];
    assert now[..|was| + i] == was + msgs[..i] && now[..|was| + i + 1] == now;
    SnocMessage(now, |was| + i);
  }

  lemma SampleTaken(samples: seq<Sample>, s: Sample)
    ensures Dropping(samples + [s]) == ShouldSkip(s.pending, s.limit, Dropping(samples))
  {
    assert (samples + [s])[..|samples|] == samples;
  }

  /** Encoder output as packets numbered from `from` on. */
  function Numbered(outputs: seq<Output>, from: nat): (r: seq<Packet>)
    ensures |r| == |outputs|
    ensures forall i :: 0 <= i < |r| ==> r[i] == Packet(from + i, outputs[i].keyframe, outputs[i].size)
  {
    seq(|outputs|, i requires 0 <= i < |outputs| => Packet(from + i, outputs[i].keyframe, outputs[i].size))
  }

  /** A ping whose pong fails ends the connection; a message the host does not know does not. */
  method UnansweredPing() returns (afterPing: bool, afterVideo: bool)
    ensures !afterPing && afterVideo
  {
    hide LastParams, Contains, UntilBye, PollBreaks, BacklogLimit, Dropping, Taken, InForce;
    OnlyMessage(Message(MSG_PING, []));
    OnlyMessage(Message(3, []));
    var d := new StreamDaemon(60, 8000);
    d.PollControl(Read([Message(MSG_PING, [])], false));
    afterPing := d.connected;
    d := new StreamDaemon(60, 8000);
    d.PollControl(Read([Message(3, [])], false));
    afterVideo := d.connected;
  }

  lemma OnlyMessage(m: Message)
    ensures PollBreaks(Read([m], false)) <==> m.kind == MSG_BYE || m.kind == MSG_PING
  {
    assert m in [m] && [m][1..] == [];
    assert UntilBye([m]) == if m.kind == MSG_BYE then [] else [m] + UntilBye([]);
  }

  // ----- Whole runs --------------------------------------------------------

  /** What a run of turns comes to as far as the captures and the requests go: the backlog samples
      taken, the takings, what was heard since the last, and which turns encoded. */
  datatype Pacing = Pacing(samples: seq<Sample>, takes: seq<Take>, heard: seq<Message>, kept: seq<bool>)

  function Pace(turns: seq<Turn>, fps: int, kbps: int): (p: Pacing)
    ensures |p.kept| == |turns|
  {
    if turns == [] then Pacing([], [], [], [])
    else PaceOn(Pace(turns[..|turns| - 1], fps, kbps), turns[|turns| - 1], fps, kbps)
  }

  function PaceOn(p: Pacing, t: Turn, fps: int, kbps: int): Pacing {
    var samples := p.samples + if t.captured then [Sample(t.pending, LimitAfter(p, fps, kbps))] else [];
    var kept := t.captured && !Dropping(samples);
    Pacing(samples, if kept then p.takes + [Take(p.heard, t.reopens)] else p.takes,
           (if kept then [] else p.heard) + Heard(t.poll), p.kept + [kept])
  }

  /** The backlog limit that goes with the bitrate in force. */
  function LimitAfter(p: Pacing, fps: int, kbps: int): nat {
    BacklogLimit(InForce(fps, kbps, p.takes).1)
  }

  lemma PaceNext(turns: seq<Turn>, i: nat, fps: int, kbps: int)
    requires i < |turns|
    ensures Pace(turns[..i + 1], fps, kbps) == PaceOn(Pace(turns[..i], fps, kbps), turns[i], fps, kbps)
  {
    assert turns[..i + 1][..i] == turns[..i];
  }

  /** A turn encodes exactly when it has a capture and the samples so far do not say to drop. */
  lemma {:induction false} KeptMeaning(turns: seq<Turn>, fps: int, kbps: int, k: nat)
    requires k < |turns|
    ensures Pace(turns, fps, kbps).kept[k] <==>
            turns[k].captured && !Dropping(Pace(turns[..k + 1], fps, kbps).samples)
  {
    if k == |turns| - 1 {
      assert turns[..k + 1] == turns;
    } else {
      KeptMeaning(turns[..|turns| - 1], fps, kbps, k);
      assert turns[..|turns| - 1][..k + 1] == turns[..k + 1];
    }
  }

  /** Everything the encoder gave in the turns that encoded. */
  function Fed(turns: seq<Turn>, kept: seq<bool>): seq<Output>
    requires |kept| == |turns|
  {
    if turns == [] then []
    else
      var n := |turns| - 1;
      Fed(turns[..n], kept[..n]) + if kept[n] then turns[n].output else []
  }

  lemma NumberedAppend(a: seq<Output>, b: seq<Output>)
    ensures Numbered(a, 0) + Numbered(b, |a|) == Numbered(a + b, 0)
  {
  }

  function Lost(ok: nat, all: nat): nat {
    if ok < all then all - ok else 0
  }

  /** What n turns of the loop, and the flush if the link held, sent: the encoder's whole output
      for the captures kept, short of what followed the first failed write. */
  ghost predicate Ran(turns: seq<Turn>, flushed: seq<Output>, flushOk: nat, fps: int, kbps: int, n: nat,
                      sent: seq<Packet>, connected: bool, encoded: seq<Packet>)
  {
    && n <= |turns|
    && var kept := Pace(turns[..n], fps, kbps).kept;
    && (forall k: nat | k + 1 < n :: !LinkBreaks(turns[k], kept[k]))
    && (n < |turns| ==> n > 0 && LinkBreaks(turns[n - 1], kept[n - 1]))
    && var up := n == 0 || !LinkBreaks(turns[n - 1], kept[n - 1]);
    && connected == (up && flushOk >= |flushed|)
    && encoded == Numbered(Fed(turns[..n], kept) + (if up then flushed else []), 0)
    && sent <= encoded
    && |encoded| == |sent| + (if up then Lost(flushOk, |flushed|)
                              else if kept[n - 1] then Lost(turns[n - 1].sendsOk, |turns[n - 1].output|) else 0)
  }

  /** After i turns the loop is where Pace says, none of the turns before the last broke the
      link, and the packets are those of the captures kept. */
  ghost predicate Underway(turns: seq<Turn>, fps: int, kbps: int, i: nat, samples: seq<Sample>, takes: seq<Take>,
                           heard: seq<Message>, connected: bool, encoded: seq<Packet>, sent: seq<Packet>)
  {
    && i <= |turns|
    && var p := Pace(turns[..i], fps, kbps);
    && samples == p.samples && takes == p.takes && (connected ==> heard == p.heard)
    && (forall k: nat | k + 1 < i :: !LinkBreaks(turns[k], p.kept[k]))
    && connected == (i == 0 || !LinkBreaks(turns[i - 1], p.kept[i - 1]))
    && encoded == Numbered(Fed(turns[..i], p.kept), 0)
    && sent <= encoded
    && |encoded| == |sent| + if i > 0 && p.kept[i - 1] then Lost(turns[i - 1].sendsOk, |turns[i - 1].output|) else 0
  }

  lemma NotUnderway(turns: seq<Turn>, fps: int, kbps: int)
    ensures Underway(turns, fps, kbps, 0, [], [], [], true, [], [])
  {
  }

  /** One turn more. */
  lemma UnderwayNext(turns: seq<Turn>, fps: int, kbps: int, i: nat, samples: seq<Sample>, takes: seq<Take>,
                     heard: seq<Message>, encoded: seq<Packet>, sent: seq<Packet>,
                     heard2: seq<Message>, connected2: bool, sent2: seq<Packet>)
    requires i < |turns| && Underway(turns, fps, kbps, i, samples, takes, heard, true, encoded, sent)
    requires sent == encoded
    requires var p := Pace(turns[..i], fps, kbps); var q := PaceOn(p, turns[i], fps, kbps);
             && connected2 == !LinkBreaks(turns[i], q.kept[i]) && (connected2 ==> heard2 == q.heard)
             && sent2 <= encoded + (if q.kept[i] then Numbered(turns[i].output, |encoded|) else [])
             && |sent2| == |sent| + if q.kept[i] then Min(turns[i].sendsOk, |turns[i].output|) else 0
    ensures var q := PaceOn(Pace(turns[..i], fps, kbps), turns[i], fps, kbps);
            Underway(turns, fps, kbps, i + 1, q.samples, q.takes, heard2, connected2,
                     encoded + (if q.kept[i] then Numbered(turns[i].output, |encoded|) else []), sent2)
  {
    hide Dropping, LinkBreaks, Heard, InForce, LimitAfter, Numbered;
    PaceNext(turns, i, fps, kbps);
    var p := Pace(turns[..i], fps, kbps);
    var q := PaceOn(p, turns[i], fps, kbps);
    assert turns[..i + 1][..i] == turns[..i] && q.kept[..i] == p.kept;
    NumberedAppend(Fed(turns[..i], p.kept), if q.kept[i] then turns[i].output else []);
    NumberedAppend(Fed(turns[..i], p.kept), []);
    assert Numbered([], |encoded|) == [];
    assert encoded + [] == encoded;
  }

  lemma RanIfUp(turns: seq<Turn>, flushed: seq<Output>, flushOk: nat, fps: int, kbps: int, samples: seq<Sample>,
                takes: seq<Take>, heard: seq<Message>, encoded: seq<Packet>, sent: seq<Packet>, sent2: seq<Packet>)
    requires Underway(turns, fps, kbps, |turns|, samples, takes, heard, true, encoded, sent) && sent == encoded
    requires sent2 == sent + Numbered(flushed, |sent|)[..Min(flushOk, |flushed|)]
    ensures Ran(turns, flushed, flushOk, fps, kbps, |turns|, sent2, flushOk >= |flushed|, encoded + Numbered(flushed, |sent|))
  {
    hide Pace, Fed, LinkBreaks, Numbered;
    assert turns[..|turns|] == turns;
    NumberedAppend(Fed(turns, Pace(turns, fps, kbps).kept), flushed);
    assert Numbered(flushed, |sent|)[..|flushed|] == Numbered(flushed, |sent|);
  }

  lemma RanIfDown(turns: seq<Turn>, flushed: seq<Output>, flushOk: nat, fps: int, kbps: int, i: nat, samples: seq<Sample>,
                  takes: seq<Take>, heard: seq<Message>, encoded: seq<Packet>, sent: seq<Packet>)
    requires Underway(turns, fps, kbps, i, samples, takes, heard, false, encoded, sent)
    ensures Ran(turns, flushed, flushOk, fps, kbps, i, sent, false, encoded)
  {
    hide Pace, LinkBreaks, Numbered;
    var all := Fed(turns[..i], Pace(turns[..i], fps, kbps).kept);
    assert all + [] == all;
  }

  lemma RanNumbers(turns: seq<Turn>, flushed: seq<Output>, flushOk: nat, fps: int, kbps: int, n: nat,
                   sent: seq<Packet>, connected: bool, encoded: seq<Packet>)
    requires Ran(turns, flushed, flushOk, fps, kbps, n, sent, connected, encoded)
    ensures sent <= encoded && (connected ==> sent == encoded)
    ensures forall i :: 0 <= i < |encoded| ==> encoded[i].index == i
  {
    hide Pace, LinkBreaks, Fed;
  }

  /** The loop itself: runs until the client is gone or the schedule ends, then flushes the
      encoder. */
  method RunUntil(turns: seq<Turn>, flushed: seq<Output>, flushOk: nat, fps: int, kbps: int)
    returns (sent: seq<Packet>, connected: bool, ghost encoded: seq<Packet>, ghost n: nat)
    ensures Ran(turns, flushed, flushOk, fps, kbps, n, sent, connected, encoded)
  {
    hide Underway, Ran, Pace, LinkBreaks, Heard, Dropping, BacklogLimit, Fed, LastParams, Contains, Taken, InForce;
    var d := new StreamDaemon(fps, kbps);
    var i := 0;
    NotUnderway(turns, fps, kbps);
    while i < |turns| && d.connected
      invariant fresh(d) && d.Valid() && d.fps0 == fps && d.kbps0 == kbps && i <= |turns|
      invariant Underway(turns, fps, kbps, i, d.samples, d.takes, d.heard, d.connected, d.encoded, d.sent)
    {
      ghost var samples, takes, heard, encoded0, sent0 := d.samples, d.takes, d.heard, d.encoded, d.sent;
      PacePart(turns, fps, kbps, i, samples, takes, heard, encoded0, sent0);
      SampleTaken(samples, Sample(turns[i].pending, d.limit));
      d.Step(turns[i]);
      UnderwayNext(turns, fps, kbps, i, samples, takes, heard, encoded0, sent0, d.heard, d.connected, d.sent);
      i := i + 1;
    }
    n := i;
    sent, connected := d.sent, d.connected;
    encoded := d.encoded;
    if connected {
      var packets := Numbered(flushed, |d.sent|);
      d.SendPackets(packets, flushOk);
      RanIfUp(turns, flushed, flushOk, fps, kbps, d.samples, d.takes, d.heard, encoded, sent, d.sent);
      sent, connected := d.sent, d.connected;
      encoded := encoded + packets;
    } else {
      RanIfDown(turns, flushed, flushOk, fps, kbps, i, d.samples, d.takes, d.heard, encoded, sent);
    }
  }

  /** What Underway says of the next turn. */
  lemma PacePart(turns: seq<Turn>, fps: int, kbps: int, i: nat, samples: seq<Sample>, takes: seq<Take>,
                 heard: seq<Message>, encoded: seq<Packet>, sent: seq<Packet>)
    requires i < |turns| && Underway(turns, fps, kbps, i, samples, takes, heard, true, encoded, sent)
    ensures var t := turns[i]; var q := PaceOn(Pace(turns[..i], fps, kbps), t, fps, kbps);
            var more := if t.captured then [Sample(t.pending, BacklogLimit(InForce(fps, kbps, takes).1))] else [];
            var kept := t.captured && !Dropping(samples + more);
            && Pace(turns[..i], fps, kbps).takes == takes
            && |q.kept| == i + 1 && q.kept[i] == kept
            && q.samples == samples + more && q.takes == takes + (if kept then [Take(heard, t.reopens)] else [])
            && q.heard == (if kept then [] else heard) + Heard(t.poll)
  {
    hide Dropping, BacklogLimit, InForce, Heard, LinkBreaks, Fed, Numbered;
    assert takes + [] == takes;
  }

  // ----- Over a real link --------------------------------------------------

  function TotalSize(packets: seq<Packet>): nat {
    if packets == [] then 0 else packets[0].size + TotalSize(packets[1..])
  }

  function OutputSize(outputs: seq<Output>): nat {
    if outputs == [] then 0 else outputs[0].size + OutputSize(outputs[1..])
  }

  lemma {:induction false} SentSize(outputs: seq<Output>, from: nat, n: nat)
    requires n <= |outputs|
    ensures TotalSize(Numbered(outputs, from)[..n]) == OutputSize(outputs[..n])
  {
    if n > 0 {
      SentSize(outputs[1..], from + 1, n - 1);
      assert Numbered(outputs, from)[..n][1..] == Numbered(outputs[1..], from + 1)[..n - 1];
      assert outputs[..n][1..] == outputs[1..][..n - 1];
    }
  }

  /** A turn and how many queued bytes the link drains before it. */
  datatype LinkTurn = LinkTurn(turn: Turn, drained: nat)

  /** What a turn puts on the link. */
  function PutOn(t: Turn, kept: bool): nat {
    if kept then OutputSize(t.output[..Min(t.sendsOk, |t.output|)]) else 0
  }

  /** Turn k as the loop saw it and as the link saw it: the backlog it samples is what is queued,
      the limit goes with the bitrate then in force, and the bytes are those of its packets. */
  ghost predicate PacedAt(turns: seq<LinkTurn>, fps: int, kbps: int, seen: seq<Turn>, paced: seq<SendBacklog.Turn>, k: nat)
  {
    && k < |turns| && k < |seen| && k < |paced|
    && var t := turns[k];
    && seen[k] == t.turn.(pending := Undrained(AfterTurns(paced[..k]).queued, t.drained))
    && paced[k] == SendBacklog.Turn(t.drained, t.turn.captured, LimitAfter(Pace(seen[..k], fps, kbps), fps, kbps),
                                    PutOn(t.turn, Pace(seen[..k + 1], fps, kbps).kept[k]))
  }

  /** A run over a link: every turn up to the one that broke it, if any. */
  ghost predicate RanPaced(turns: seq<LinkTurn>, fps: int, kbps: int, seen: seq<Turn>, paced: seq<SendBacklog.Turn>) {
    && |seen| == |paced| <= |turns|
    && (forall k :: 0 <= k < |seen| ==> PacedAt(turns, fps, kbps, seen, paced, k))
    && var kept := Pace(seen, fps, kbps).kept;
    && (forall k: nat | k + 1 < |seen| :: !LinkBreaks(seen[k], kept[k]))
    && (|seen| < |turns| ==> seen != [] && LinkBreaks(seen[|seen| - 1], kept[|seen| - 1]))
  }

  lemma PacedAtGrows(turns: seq<LinkTurn>, fps: int, kbps: int, seen: seq<Turn>, paced: seq<SendBacklog.Turn>, k: nat,
                     t: Turn, now: SendBacklog.Turn)
    requires PacedAt(turns, fps, kbps, seen, paced, k)
    ensures PacedAt(turns, fps, kbps, seen + [t], paced + [now], k)
  {
    hide Pace, AfterTurns, LimitAfter, PutOn;
    assert (seen + [t])[..k] == seen[..k] && (seen + [t])[..k + 1] == seen[..k + 1];
    assert (paced + [now])[..k] == paced[..k];
  }

  lemma UnderwayGrows(seen: seq<Turn>, t: Turn, fps: int, kbps: int, samples: seq<Sample>, takes: seq<Take>,
                      heard: seq<Message>, connected: bool, encoded: seq<Packet>, sent: seq<Packet>)
    requires Underway(seen, fps, kbps, |seen|, samples, takes, heard, connected, encoded, sent)
    ensures Underway(seen + [t], fps, kbps, |seen|, samples, takes, heard, connected, encoded, sent)
  {
    hide Pace, LinkBreaks, Fed, Numbered;
    assert (seen + [t])[..|seen|] == seen == seen[..|seen|];
  }

  lemma AddedSize(encoded: seq<Packet>, t: Turn, sent: seq<Packet>, kept: bool)
    requires sent <= encoded + (if kept then Numbered(t.output, |encoded|) else [])
    requires |sent| == |encoded| + if kept then Min(t.sendsOk, |t.output|) else 0
    ensures TotalSize(sent[|encoded|..]) == PutOn(t, kept)
  {
    hide OutputSize, Numbered;
    if kept {
      var n := Min(t.sendsOk, |t.output|);
      assert sent[|encoded|..] == Numbered(t.output, |encoded|)[..n];
      SentSize(t.output, |encoded|, n);
    } else {
      assert sent[|encoded|..] == [];
    }
  }

  /** The loop against a link that drains as it likes: what is queued never exceeds the limit in
      force at some capture it encoded plus the packets of that capture. */
  method RunPaced(turns: seq<LinkTurn>, fps: int, kbps: int)
    returns (queued: nat, ghost seen: seq<Turn>, ghost paced: seq<SendBacklog.Turn>)
    ensures RanPaced(turns, fps, kbps, seen, paced) && queued == AfterTurns(paced).queued
    ensures queued == 0 || exists k: nat | k < |paced| ::
              Pace(seen, fps, kbps).kept[k] && queued <= paced[k].limit + paced[k].bytes
  {
    hide Underway, Pace, LinkBreaks, Heard, Dropping, BacklogLimit, Fed, LastParams, Contains, Taken, InForce,
         AfterTurns, OneTurn, TotalSize, OutputSize, Numbered, PacedAt, PutOn, PaceOn, Undrained;
    var d := new StreamDaemon(fps, kbps);
    queued, seen, paced := 0, [], [];
    NotUnderway([], fps, kbps);
    NothingQueued();
    var i := 0;
    while i < |turns| && d.connected
      invariant fresh(d) && d.Valid() && d.fps0 == fps && d.kbps0 == kbps && i == |seen| == |paced| <= |turns|
      invariant Underway(seen, fps, kbps, i, d.samples, d.takes, d.heard, d.connected, d.encoded, d.sent)
      invariant AfterTurns(paced) == Queue(queued, d.dropping)
      invariant forall k :: 0 <= k < i ==> PacedAt(turns, fps, kbps, seen, paced, k)
    {
      var t := turns[i].turn.(pending := Undrained(queued, turns[i].drained));
      var before := |d.sent|;
      ghost var samples, takes, heard, encoded, sent, was := d.samples, d.takes, d.heard, d.encoded, d.sent, d.dropping;
      ghost var limit := d.limit;
      UnderwayGrows(seen, t, fps, kbps, samples, takes, heard, true, encoded, sent);
      ghost var all := seen + [t];
      PacePart(all, fps, kbps, i, samples, takes, heard, encoded, sent);
      assert all[..i] == seen;
      SampleTaken(samples, Sample(t.pending, d.limit));
      d.Step(t);
      UnderwayNext(all, fps, kbps, i, samples, takes, heard, encoded, sent, d.heard, d.connected, d.sent);
      ghost var kept := t.captured && !d.dropping;
      var added := TotalSize(d.sent[before..]);
      AddedSize(encoded, t, d.sent, kept);
      ghost var now := SendBacklog.Turn(turns[i].drained, t.captured, limit, added);
      TurnDone(Queue(queued, was), now, d.dropping, t.pending + added, kept, t);
      OneTurnMore(paced, now);
      Recorded(turns, fps, kbps, seen, paced, t, now, takes, kept);
      queued := t.pending + added;
      seen, paced := all, paced + [now];
      i := i + 1;
    }
    UnderwayEnds(seen, fps, kbps, d.samples, d.takes, d.heard, d.connected, d.encoded, d.sent);
    BacklogBounded(paced);
    if queued != 0 {
      ghost var k: nat :| k < |paced| && Filled(paced, k, queued);
      FilledKept(turns, fps, kbps, seen, paced, k, queued);
    }
  }

  lemma NothingQueued()
    ensures AfterTurns([]) == Queue(0, false)
  {
  }

  lemma OneTurnMore(paced: seq<SendBacklog.Turn>, t: SendBacklog.Turn)
    ensures AfterTurns(paced + [t]) == OneTurn(AfterTurns(paced), t)
  {
    assert (paced + [t])[..|paced|] == paced;
  }

  lemma TurnDone(was: Queue, now: SendBacklog.Turn, dropping: bool, queued: nat, kept: bool, t: Turn)
    requires dropping == if now.captured then ShouldSkip(Undrained(was.queued, now.drained), now.limit, was.dropping)
                         else was.dropping
    requires kept == (now.captured && !dropping) && now.bytes == PutOn(t, kept)
    requires queued == Undrained(was.queued, now.drained) + now.bytes
    ensures OneTurn(was, now) == Queue(queued, dropping)
  {
    hide OutputSize;
  }

  lemma Recorded(turns: seq<LinkTurn>, fps: int, kbps: int, seen: seq<Turn>, paced: seq<SendBacklog.Turn>,
                 t: Turn, now: SendBacklog.Turn, takes: seq<Take>, kept: bool)
    requires |seen| == |paced| < |turns|
    requires forall k :: 0 <= k < |seen| ==> PacedAt(turns, fps, kbps, seen, paced, k)
    requires t == turns[|seen|].turn.(pending := Undrained(AfterTurns(paced).queued, turns[|seen|].drained))
    requires Pace(seen, fps, kbps).takes == takes
    requires PaceOn(Pace(seen, fps, kbps), t, fps, kbps).kept[|seen|] == kept
    requires now == SendBacklog.Turn(turns[|seen|].drained, t.captured, BacklogLimit(InForce(fps, kbps, takes).1), PutOn(t, kept))
    ensures forall k :: 0 <= k <= |seen| ==> PacedAt(turns, fps, kbps, seen + [t], paced + [now], k)
  {
    hide PacedAt, AfterTurns, BacklogLimit, InForce, OutputSize, Dropping, Undrained;
    forall k | 0 <= k < |seen| ensures PacedAt(turns, fps, kbps, seen + [t], paced + [now], k) {
      PacedAtGrows(turns, fps, kbps, seen, paced, k, t, now);
    }
    RecordedLast(turns, fps, kbps, seen, paced, t, now);
  }

  lemma RecordedLast(turns: seq<LinkTurn>, fps: int, kbps: int, seen: seq<Turn>, paced: seq<SendBacklog.Turn>,
                     t: Turn, now: SendBacklog.Turn)
    requires |seen| == |paced| < |turns|
    requires t == turns[|seen|].turn.(pending := Undrained(AfterTurns(paced).queued, turns[|seen|].drained))
    requires now == SendBacklog.Turn(turns[|seen|].drained, t.captured, LimitAfter(Pace(seen, fps, kbps), fps, kbps),
                                     PutOn(t, PaceOn(Pace(seen, fps, kbps), t, fps, kbps).kept[|seen|]))
    ensures PacedAt(turns, fps, kbps, seen + [t], paced + [now], |seen|)
  {
    hide AfterTurns, LimitAfter, OutputSize, PaceOn, Undrained;
    var all := seen + [t];
    PaceNext(all, |seen|, fps, kbps);
    assert all[..|seen|] == seen && all[..|seen| + 1] == all && (paced + [now])[..|seen|] == paced;
  }

  lemma UnderwayEnds(seen: seq<Turn>, fps: int, kbps: int, samples: seq<Sample>, takes: seq<Take>, heard: seq<Message>,
                     connected: bool, encoded: seq<Packet>, sent: seq<Packet>)
    requires Underway(seen, fps, kbps, |seen|, samples, takes, heard, connected, encoded, sent)
    ensures var kept := Pace(seen, fps, kbps).kept;
            && (forall k: nat | k + 1 < |seen| :: !LinkBreaks(seen[k], kept[k]))
            && connected == (seen == [] || !LinkBreaks(seen[|seen| - 1], kept[|seen| - 1]))
  {
    hide Pace, LinkBreaks, Fed, Numbered;
    assert seen[..|seen|] == seen;
  }

  /** The link's dropping is the loop's. */
  lemma {:induction false} SameDropping(turns: seq<LinkTurn>, fps: int, kbps: int, seen: seq<Turn>,
                                        paced: seq<SendBacklog.Turn>, n: nat)
    requires n <= |seen| == |paced| <= |turns|
    requires forall k :: 0 <= k < n ==> PacedAt(turns, fps, kbps, seen, paced, k)
    ensures AfterTurns(paced[..n]).dropping == Dropping(Pace(seen[..n], fps, kbps).samples)
  {
    hide BacklogLimit, InForce, PutOn, Undrained, LimitAfter;
    if n > 0 {
      var k := n - 1;
      SameDropping(turns, fps, kbps, seen, paced, k);
      assert PacedAt(turns, fps, kbps, seen, paced, k);
      var p := Pace(seen[..k], fps, kbps);
      PaceNext(seen, k, fps, kbps);
      OneTurnMore(paced[..k], paced[k]);
      assert paced[..n] == paced[..k] + [paced[k]];
      SampleTaken(p.samples, Sample(seen[k].pending, paced[k].limit));
      assert p.samples + [] == p.samples;
    }
  }

  lemma FilledKept(turns: seq<LinkTurn>, fps: int, kbps: int, seen: seq<Turn>, paced: seq<SendBacklog.Turn>, k: nat, queued: nat)
    requires |seen| == |paced| <= |turns| && k < |paced| && Filled(paced, k, queued)
    requires forall j :: 0 <= j < |seen| ==> PacedAt(turns, fps, kbps, seen, paced, j)
    ensures Pace(seen, fps, kbps).kept[k] && queued <= paced[k].limit + paced[k].bytes
  {
    hide Pace, AfterTurns, Dropping, LimitAfter, PutOn;
    SameDropping(turns, fps, kbps, seen, paced, k + 1);
    assert PacedAt(turns, fps, kbps, seen, paced, k);
    KeptMeaning(seen, fps, kbps, k);
  }
}

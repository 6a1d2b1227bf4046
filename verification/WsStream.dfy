/** Whole WebSocket streams: what a byte stream of frames delivers to the application, and
    what an accumulated byte stream is cut into for sending. */
module WsStream {
  import opened Bytes
  import opened Framing
  import opened WsFrames

  // ----- Inbound -----------------------------------------------------------

  /** A payload with the length prefix the reader puts in front of it. */
  function Prefixed(payload: seq<byte>): seq<byte>
    requires |payload| <= MAX_FRAME
  {
    PutU32(|payload|) + payload
  }

  /** The length-prefixed application bytes still to come from this position. */
  function Tunnel(data: seq<byte>, cuts: set<nat>, at: nat): seq<byte>
    requires at <= |data|
    decreases |data| - at
  {
    match ReadStep(data, cuts, at)
    case Dead(_) => []
    case Closed(_) => []
    case Quiet(next, _) => Tunnel(data, cuts, next)
    case App(next, payload) => Prefixed(payload) + Tunnel(data, cuts, next)
  }

  /** The reader never fails from here on before the end of the stream or a close frame. */
  predicate Clean(data: seq<byte>, cuts: set<nat>, at: nat)
    requires at <= |data|
    decreases |data| - at
  {
    at == |data| ||
    match ReadStep(data, cuts, at)
    case Dead(_) => false
    case Closed(_) => true
    case Quiet(next, _) => Clean(data, cuts, next)
    case App(next, _) => Clean(data, cuts, next)
  }

  /** At the end of the stream the reader fails without moving. */
  lemma EndIsDead(data: seq<byte>, cuts: set<nat>)
    ensures ReadStep(data, cuts, |data|) == Dead(|data|)
    ensures Tunnel(data, cuts, |data|) == []
  {
  }

  // ----- Waiting for application data --------------------------------------

  /** Decrypted bytes of the current record are left. */
  predicate Open(data: seq<byte>, cuts: set<nat>, at: nat) {
    at < |data| && at !in cuts
  }

  /** Reads frames until one brings application data or fails, or the record they came in ends. */
  function Pull(data: seq<byte>, cuts: set<nat>, at: nat): (r: Outcome)
    requires at <= |data|
    ensures at <= r.at <= |data| && (!r.Dead? ==> r.at > at)
    ensures r.App? ==> 0 < |r.payload| <= MAX_FRAME
    decreases |data| - at, 0
  {
    match ReadStep(data, cuts, at)
    case Quiet(next, _) => PullOpen(data, cuts, next)
    case o => o
  }

  function PullOpen(data: seq<byte>, cuts: set<nat>, at: nat): (r: Outcome)
    requires at <= |data|
    ensures at <= r.at <= |data| && (!r.Dead? && !r.Quiet? ==> r.at > at)
    ensures r.App? ==> 0 < |r.payload| <= MAX_FRAME
    decreases |data| - at, 1
  {
    if Open(data, cuts, at) then Pull(data, cuts, at) else Quiet(at, [])
  }

  /** What waiting comes to: frames already decrypted first, then, if poll reports the socket
      readable, those that woke it up. It ends quiet if poll does not, or if only control frames
      came. */
  function WaitOutcome(data: seq<byte>, cuts: set<nat>, at: nat, pollReady: bool): (r: Outcome)
    requires at <= |data|
    ensures at <= r.at <= |data|
    ensures r.App? ==> 0 < |r.payload| <= MAX_FRAME
    ensures !r.Dead? && (pollReady || !r.Quiet?) ==> r.at > at
  {
    var first := PullOpen(data, cuts, at);
    if !first.Quiet? || !pollReady then first else Pull(data, cuts, first.at)
  }

  /** Reading from `at` to this outcome skips nothing but control frames: what the stream brings
      is what the outcome brings and what comes after it, and a reader in step stays in step. */
  ghost predicate Carries(data: seq<byte>, cuts: set<nat>, at: nat, o: Outcome)
    requires at <= |data| && o.at <= |data| && (o.App? ==> |o.payload| <= MAX_FRAME)
  {
    match o
    case App(next, payload) =>
      Tunnel(data, cuts, at) == Prefixed(payload) + Tunnel(data, cuts, next) &&
      (Clean(data, cuts, at) <==> Clean(data, cuts, next))
    case Quiet(next, _) =>
      Tunnel(data, cuts, at) == Tunnel(data, cuts, next) && (Clean(data, cuts, at) <==> Clean(data, cuts, next))
    case Closed(_) => Tunnel(data, cuts, at) == []
    case Dead(next) => Tunnel(data, cuts, at) == [] && (Clean(data, cuts, at) ==> next == |data|)
  }

  lemma StepCarries(data: seq<byte>, cuts: set<nat>, at: nat)
    requires at <= |data|
    ensures Carries(data, cuts, at, ReadStep(data, cuts, at))
  {
    hide ReadStep;
    if at == |data| { EndIsDead(data, cuts); }
  }

  lemma {:induction false} PullCarries(data: seq<byte>, cuts: set<nat>, at: nat)
    requires at <= |data|
    ensures Carries(data, cuts, at, Pull(data, cuts, at))
    decreases |data| - at
  {
    hide ReadStep, Tunnel, Clean;
    StepCarries(data, cuts, at);
    var o := ReadStep(data, cuts, at);
    if o.Quiet? && Open(data, cuts, o.at) {
      PullCarries(data, cuts, o.at);
    }
  }

  lemma WaitCarries(data: seq<byte>, cuts: set<nat>, at: nat, pollReady: bool)
    requires at <= |data|
    ensures Carries(data, cuts, at, WaitOutcome(data, cuts, at, pollReady))
  {
    hide ReadStep, Tunnel, Clean, Pull;
    var first := PullOpen(data, cuts, at);
    if Open(data, cuts, at) { PullCarries(data, cuts, at); }
    if first.Quiet? && pollReady { PullCarries(data, cuts, first.at); }
  }

  /** A frame the peer may send mid-session: anything but a close or a fragment. */
  predicate Ordinary(f: WsFrame) {
    f.op != 8 && (f.op == 0 || f.op == 2 ==> f.fin)
  }

  predicate CarriesApp(f: WsFrame) {
    (f.op == 0 || f.op == 2) && f.payload != []
  }

  function SerializeAll(fs: seq<WsFrame>): seq<byte>
  {
    if fs == [] then [] else Serialize(fs[0]) + SerializeAll(fs[1..])
  }

  /** No frame of the list, laid out from this position, has a split header. */
  ghost predicate AllWhole(data: seq<byte>, cuts: set<nat>, at: nat, fs: seq<WsFrame>)
    decreases |fs|
  {
    fs == [] || (HeaderWhole(data, cuts, at, fs[0]) &&
                 AllWhole(data, cuts, at + |Serialize(fs[0])|, fs[1..]))
  }

  /** The messages carried by a list of frames: one per non-empty data frame. */
  function Carried(fs: seq<WsFrame>): seq<Message> {
    if fs == [] then []
    else
      var m := if CarriesApp(fs[0]) then [Message(fs[0].payload[0], fs[0].payload[1..])] else [];
      m + Carried(fs[1..])
  }

  lemma PrefixedIsEncoded(payload: seq<byte>)
    requires 0 < |payload| <= MAX_FRAME
    ensures Prefixed(payload) == EncodeMessage(Message(payload[0], payload[1..]))
  {
    assert payload == [payload[0]] + payload[1..];
  }

  /** Any list of ordinary frames, masked or not, with pings and pongs in between: the reader
      stays in step to the end exactly when no header is split, and then delivers exactly the
      encoded messages the frames carry. */
  lemma {:induction false} TunnelOfFrames(data: seq<byte>, cuts: set<nat>, at: nat, fs: seq<WsFrame>)
    requires forall f :: f in fs ==> Ordinary(f)
    requires at <= |data| && data[at..] == SerializeAll(fs)
    ensures Clean(data, cuts, at) <==> AllWhole(data, cuts, at, fs)
    ensures AllWhole(data, cuts, at, fs) ==> Tunnel(data, cuts, at) == EncodeAll(Carried(fs))
    decreases |fs|
  {
    hide ReadStep, Serialize, EncodeMessage, HeaderWhole;
    if fs == [] {
      EndIsDead(data, cuts);
      return;
    }
    var f := fs[0];
    assert f in fs;
    FirstFrameAt(data, at, f, SerializeAll(fs[1..]));
    ReadBack(data, cuts, at, f);
    if HeaderWhole(data, cuts, at, f) {
      OneFrame(data, cuts, at, f, SerializeAll(fs[1..]));
      TunnelOfFrames(data, cuts, at + |Serialize(f)|, fs[1..]);
      if CarriesApp(f) {
        PrefixedIsEncoded(f.payload);
        EncodeAllCons(Message(f.payload[0], f.payload[1..]), Carried(fs[1..]));
      } else {
        assert [] + Carried(fs[1..]) == Carried(fs[1..]);
      }
    }
  }

  lemma EncodeAllCons(m: Message, ms: seq<Message>)
    ensures EncodeAll([m] + ms) == EncodeMessage(m) + EncodeAll(ms)
  {
    assert ([m] + ms)[1..] == ms;
  }

  lemma OneFrame(data: seq<byte>, cuts: set<nat>, at: nat, f: WsFrame, rest: seq<byte>)
    requires Ordinary(f)
    requires at <= |data| && data[at..] == Serialize(f) + rest
    requires HeaderWhole(data, cuts, at, f)
    ensures var next := at + |Serialize(f)|; var r := ReadStep(data, cuts, at);
            && at < next <= |data| && data[next..] == rest
            && (if CarriesApp(f) then r == App(next, f.payload) else r.Quiet? && r.at == next)
  {
    hide ReadStep, Serialize, HeaderWhole;
    FirstFrameAt(data, at, f, rest);
    ReadBack(data, cuts, at, f);
  }

  lemma FirstFrameAt(data: seq<byte>, at: nat, f: WsFrame, rest: seq<byte>)
    requires at <= |data| && data[at..] == Serialize(f) + rest
    ensures FrameAt(data, at, f) && data[at + |Serialize(f)|..] == rest
    ensures |Serialize(f)| >= 2
  {
    hide LongLength, WireBody;
    var s := Serialize(f);
    assert data[at..][..|s|] == s && data[at..][..|s|] == data[at..at + |s|];
    assert data[at..][|s|..] == rest && data[at..][|s|..] == data[at + |s|..];
  }

  // ----- Outbound ----------------------------------------------------------

  /** How the send accumulator is cut up: complete payloads, what is left over, and whether
      it stopped at a length the channel refuses (0 or above 16 MiB). */
  datatype Split = Split(payloads: seq<seq<byte>>, rest: seq<byte>, bad: bool)

  datatype AccStep = Need | Refuse | Cut(payload: seq<byte>, size: nat)

  function FirstCut(acc: seq<byte>): (r: AccStep)
    ensures r.Cut? ==> 0 < |r.payload| <= MAX_FRAME && r.size == 4 + |r.payload| <= |acc|
  {
    if |acc| < 4 then Need
    else
      var len := GetU32(acc);
      if len == 0 || len > MAX_FRAME then Refuse
      else if |acc| < 4 + len then Need
      else Cut(acc[4..4 + len], 4 + len)
  }

  function SplitAll(acc: seq<byte>): (r: Split)
    ensures forall p :: p in r.payloads ==> 0 < |p| <= MAX_FRAME
    decreases |acc|
  {
    match FirstCut(acc)
    case Need => Split([], acc, false)
    case Refuse => Split([], acc, true)
    case Cut(payload, size) => Also(payload, SplitAll(acc[size..]))
  }

  function Also(payload: seq<byte>, r: Split): Split {
    r.(payloads := [payload] + r.payloads)
  }

  function BinaryFrame(payload: seq<byte>): WsFrame
    requires |payload| <= MAX_FRAME
  {
    Frame(true, 2, None, payload)
  }

  function BinaryFrames(ps: seq<seq<byte>>): (fs: seq<WsFrame>)
    requires forall p :: p in ps ==> |p| <= MAX_FRAME
    ensures |fs| == |ps| && forall i :: 0 <= i < |ps| ==> fs[i] == BinaryFrame(ps[i])
  {
    seq(|ps|, i requires 0 <= i < |ps| => BinaryFrame(ps[i]))
  }

  function Payload(m: Message): seq<byte> {
    [m.kind] + m.body
  }

  function Payloads(ms: seq<Message>): (ps: seq<seq<byte>>)
    ensures |ps| == |ms| && forall i :: 0 <= i < |ms| ==> ps[i] == Payload(ms[i])
  {
    seq(|ms|, i requires 0 <= i < |ms| => Payload(ms[i]))
  }

  lemma CutAppend(a: seq<byte>, b: seq<byte>)
    ensures !FirstCut(a).Need? ==> FirstCut(a + b) == FirstCut(a)
  {
    if |a| >= 4 {
      assert GetU32(a + b) == GetU32(a);
      var n := 4 + GetU32(a) as int;
      if |a| >= n {
        assert (a + b)[4..n] == a[4..n];
      }
    }
  }

  /** A chunk boundary anywhere in the outgoing bytes makes no difference. */
  lemma {:induction false} SplitAppend(a: seq<byte>, b: seq<byte>)
    requires !SplitAll(a).bad
    ensures var p := SplitAll(a); var q := SplitAll(p.rest + b);
            SplitAll(a + b) == Split(p.payloads + q.payloads, q.rest, q.bad)
    decreases |a|
  {
    hide FirstCut;
    CutAppend(a, b);
    match FirstCut(a) {
      case Need =>
      case Refuse =>
      case Cut(payload, size) =>
        SplitAppend(a[size..], b);
        assert (a + b)[size..] == a[size..] + b;
        Assoc([payload], SplitAll(a[size..]).payloads, SplitAll(SplitAll(a[size..]).rest + b).payloads);
    }
  }

  /** An encoded message stream is cut back into its payloads, none refused, whole or not
      in the middle of a message, exactly when every message fits a frame. */
  lemma SplitEncoded(ms: seq<Message>, tail: seq<byte>)
    requires |tail| < 4
    ensures SplitAll(EncodeAll(ms) + tail) == Split(Payloads(ms), tail, false) <==>
            forall m <- ms :: |m.body| < MAX_FRAME
  {
    hide SplitAll, EncodeAll;
    if forall m <- ms :: |m.body| < MAX_FRAME {
      SplitFitting(ms, tail);
    }
    if SplitAll(EncodeAll(ms) + tail) == Split(Payloads(ms), tail, false) {
      forall m <- ms ensures |m.body| < MAX_FRAME {
        var i :| 0 <= i < |ms| && ms[i] == m;
        assert Payloads(ms)[i] in Payloads(ms);
      }
    }
  }

  lemma {:induction false} SplitFitting(ms: seq<Message>, tail: seq<byte>)
    requires forall m :: m in ms ==> |m.body| < MAX_FRAME
    requires |tail| < 4
    ensures SplitAll(EncodeAll(ms) + tail) == Split(Payloads(ms), tail, false)
  {
    if ms == [] {
      assert EncodeAll(ms) + tail == tail;
    } else {
      SplitFitting(ms[1..], tail);
      hide EncodeMessage;
      var rest := EncodeAll(ms[1..]) + tail;
      Assoc(EncodeMessage(ms[0]), EncodeAll(ms[1..]), tail);
      EncodedSplits(ms[0], rest);
      assert Payloads(ms) == [Payload(ms[0])] + Payloads(ms[1..]);
    }
  }

  lemma EncodedSplits(m: Message, rest: seq<byte>)
    requires |m.body| < MAX_FRAME
    ensures SplitAll(EncodeMessage(m) + rest) == Also(Payload(m), SplitAll(rest))
  {
    var acc, len := EncodeMessage(m) + rest, 1 + |m.body|;
    assert acc == PutU32(len) + (Payload(m) + rest);
    U32RoundTrip(len, Payload(m) + rest);
    assert acc[4..4 + len] == Payload(m);
    assert FirstCut(acc) == Cut(Payload(m), 4 + len);
    assert acc[4 + len..] == rest;
  }
}

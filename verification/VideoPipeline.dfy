/** web/src/decoder.ts and web/src/paint-policy.ts: submitting packets to a WebCodecs decoder,
    and owning the frames that come back. */
module VideoPipelines {
  import opened Bytes
  import opened StreamLoop

  // ----- Which frame to paint ----------------------------------------------

  const MAX_PENDING: nat := 3
  const MAX_LEAD_US: int := 25000

  /** The last timestamp at or behind the clock. */
  function NewestDue(ts: seq<int>, clock: int): (r: Option<nat>)
    ensures r.Some? ==> r.value < |ts|
  {
    if ts == [] then None
    else if ts[|ts| - 1] <= clock then Some(|ts| - 1)
    else NewestDue(ts[..|ts| - 1], clock)
  }

  /** Index of the frame to paint from ascending timestamps, or None to wait. */
  function PaintIndex(ts: seq<int>, clock: Option<int>): (r: Option<nat>)
    ensures r.Some? ==> r.value < |ts|
  {
    if ts == [] then None
    else if clock.None? then Some(|ts| - 1)
    else if NewestDue(ts, clock.value).Some? then NewestDue(ts, clock.value)
    else if ts[0] - clock.value > MAX_LEAD_US then Some(|ts| - 1)
    else None
  }

  /** Without a clock the newest frame is painted; with one, the newest frame not ahead of it,
      or if all are ahead, none unless even the oldest leads by more than 25 ms. */
  lemma {:induction false} PaintIndexMeaning(ts: seq<int>, clock: int)
    ensures var r := NewestDue(ts, clock);
            && (r.Some? ==> ts[r.value] <= clock && forall i :: r.value < i < |ts| ==> ts[i] > clock)
            && (r.None? ==> forall i :: 0 <= i < |ts| ==> ts[i] > clock)
  {
    if ts != [] && ts[|ts| - 1] > clock {
      PaintIndexMeaning(ts[..|ts| - 1], clock);
    }
  }

  /** A frame is due without a clock, or once the clock has reached it. */
  predicate Due(clock: Option<int>, timestamp: int) {
    clock.None? || timestamp <= clock.value
  }

  /** The choice in full: the newest due frame; none of them due, the newest if even the oldest
      leads by more than 25000 us, and otherwise none. */
  lemma PaintIndexRule(ts: seq<int>, clock: Option<int>)
    requires ts != []
    ensures var r := PaintIndex(ts, clock);
            if exists i :: 0 <= i < |ts| && Due(clock, ts[i])
            then r.Some? && Due(clock, ts[r.value]) && forall i :: r.value < i < |ts| ==> !Due(clock, ts[i])
            else clock.Some? && r == if ts[0] > clock.value + 25000 then Some(|ts| - 1) else None
  {
    if clock.Some? {
      PaintIndexMeaning(ts, clock.value);
    } else {
      assert Due(clock, ts[0]);
    }
  }

  lemma DueIsNewest(ts: seq<int>, clock: Option<int>)
    ensures ts != [] && Due(clock, ts[|ts| - 1]) ==> PaintIndex(ts, clock) == Some(|ts| - 1)
  {
  }

  method ChoosePaintIndex(timestamps: seq<int>, clock: Option<int>) returns (r: Option<nat>)
    ensures r == PaintIndex(timestamps, clock)
  {
    if |timestamps| == 0 { return None; }
    if clock.None? { return Some(|timestamps| - 1); }
    r := None;
    for i := 0 to |timestamps|
      invariant r == NewestDue(timestamps[..i], clock.value)
    {
      assert timestamps[..i + 1][..i] == timestamps[..i];
      if timestamps[i] <= clock.value { r := Some(i); }
    }
    assert timestamps[..|timestamps|] == timestamps;
    if r.Some? { return; }
    return if timestamps[0] - clock.value > MAX_LEAD_US then Some(|timestamps| - 1) else None;
  }

  // ----- The pipeline ------------------------------------------------------

  /** A packet given to a decoder instance; streams are numbered like the connections. */
  datatype Handed = Handed(instance: nat, stream: nat, packet: Packet)

  datatype Frame = Frame(id: nat, timestamp: int)

  /** How a decoder answers: whether it has closed itself, its queue, and which calls throw. */
  datatype Mood = Mood(closedItself: bool, configureThrows: bool, queueSize: nat, throws: bool)

  /** Every delta directly follows, in the order of one stream, the packet handed before it, which
      went to the same decoder instance; so the first packet of every instance is a keyframe. */
  ghost predicate ReferenceChain(log: seq<Handed>) {
    forall k :: 0 <= k < |log| && !log[k].packet.keyframe ==>
      && k > 0
      && log[k - 1].instance == log[k].instance
      && log[k - 1].stream == log[k].stream
      && log[k - 1].packet.index + 1 == log[k].packet.index
  }

  /** The first n frame ids in order. */
  function FirstIds(n: nat): (r: seq<nat>)
    ensures |r| == n && forall i :: 0 <= i < n ==> r[i] == i
  {
    seq(n, i => i)
  }

  lemma OneMoreId(n: nat)
    ensures FirstIds(n) + [n] == FirstIds(n + 1)
  {
  }

  predicate Increasing(s: seq<nat>) {
    forall i, j :: 0 <= i < j < |s| ==> s[i] < s[j]
  }

  /** Whenever the pipeline is ready for a delta, the decoder in use was given the packet just
      before the next one. */
  ghost predicate InChain(decoder: Option<nat>, configured: bool, dropUntilKey: bool, instances: nat,
                          handed: seq<Handed>, stream: nat, next: nat)
  {
    && (decoder.Some? ==> decoder.value < instances)
    && (configured ==> decoder.Some?)
    && ReferenceChain(handed)
    && (configured && !dropUntilKey ==>
          && handed != []
          && handed[|handed| - 1].instance == decoder.value
          && handed[|handed| - 1].stream == stream
          && handed[|handed| - 1].packet.index + 1 == next)
  }

  lemma HandOver(decoder: nat, instances: nat, handed: seq<Handed>, stream: nat, p: Packet)
    requires p.keyframe || InChain(Some(decoder), true, false, instances, handed, stream, p.index)
    requires ReferenceChain(handed) && decoder < instances
    ensures InChain(Some(decoder), true, false, instances, handed + [Handed(decoder, stream, p)], stream, p.index + 1)
  {
  }

  /** Every frame produced is either pending or has been closed exactly once, in order. */
  ghost predicate Owned(pending: seq<Frame>, outputs: nat, released: seq<nat>, painted: seq<nat>, closed: bool) {
    && |pending| <= outputs && |pending| <= MAX_PENDING
    && released == FirstIds(outputs - |pending|)
    && (forall i :: 0 <= i < |pending| ==> pending[i].id == outputs - |pending| + i)
    && Increasing(painted)
    && (forall i :: 0 <= i < |painted| ==> painted[i] < outputs - |pending|)
    && (closed ==> pending == [])
  }

  /** Closing the first n pending frames and then drawing (or just closing) the next one. */
  lemma Painted(pending: seq<Frame>, n: nat, outputs: nat, released: seq<nat>, painted: seq<nat>, drawn: bool)
    requires Owned(pending, outputs, released, painted, false) && n < |pending|
    ensures var id := pending[n].id;
            && id == outputs - |pending| + n
            && Owned(pending[n + 1..], outputs, FirstIds(id) + [id], if drawn then painted + [id] else painted, false)
  {
    OneMoreId(outputs - |pending| + n);
  }

  lemma Reopened(pending: seq<Frame>, outputs: nat, released: seq<nat>, painted: seq<nat>, closed: bool)
    requires Owned(pending, outputs, released, painted, closed)
    ensures Owned(pending, outputs, released, painted, false) && (closed ==> pending == []) && |pending| <= 3
  {
  }

  class VideoPipeline {
    var decoder: Option<nat>      // the decoder instance in use
    var configured: bool
    var dropUntilKey: bool
    var closed: bool
    var pending: seq<Frame>
    var raf: bool                 // an animation frame is scheduled
    var keyRequests: nat
    var instances: nat            // instances created so far
    ghost var stream: nat         // number of the stream being received
    ghost var next: nat           // index of its next packet
    ghost var handed: seq<Handed>
    var outputs: nat              // frames the decoders have produced
    ghost var released: seq<nat>  // frames closed, in order
    ghost var painted: seq<nat>   // frames drawn, in order

    ghost predicate Valid()
      reads this
    {
      && InOrder()
      && (pending != [] && !closed ==> raf)  // a frame waiting is sure to be looked at
    }

    ghost predicate InOrder()
      reads this
    {
      && InChain(decoder, configured, dropUntilKey, instances, handed, stream, next)
      && Owned(pending, outputs, released, painted, closed)
    }

    constructor ()
      ensures Valid() && handed == [] && stream == 0 && next == 0 && outputs == 0 && painted == [] && decoder == None && pending == [] && !closed
    {
      decoder, configured, dropUntilKey, closed := None, false, false, false;
      pending, raf, keyRequests := [], false, 0;
      instances, stream, next, handed, outputs, released, painted := 0, 0, 0, [], 0, [], [];
    }

    /** Takes the next packet of the stream. */
    method Submit(p: Packet, mood: Mood)
      requires Valid() && p.index == next
      modifies this`decoder, this`configured, this`dropUntilKey, this`closed, this`keyRequests,
               this`instances, this`next, this`handed
      ensures Valid() && next == old(next) + 1 && !closed
      ensures handed == old(handed) || (decoder.Some? && handed == old(handed) + [Handed(decoder.value, stream, p)])
      ensures old(decoder).Some? && !mood.closedItself ==> decoder == old(decoder)
      // A keyframe always goes to the decoder unless the decoder itself refuses it.
      ensures p.keyframe && !mood.configureThrows && !mood.throws ==>
                |handed| == |old(handed)| + 1 && configured && !dropUntilKey && keyRequests == old(keyRequests)
      // A delta goes to a decoder in step unless it is backlogged or throws; then the host is
      // asked for a keyframe, once.
      ensures !p.keyframe && old(configured) && !old(dropUntilKey) && !mood.closedItself ==>
                if mood.queueSize <= 20 && !mood.throws
                then |handed| == |old(handed)| + 1 && configured && !dropUntilKey && keyRequests == old(keyRequests)
                else handed == old(handed) && dropUntilKey && keyRequests == old(keyRequests) + 1
      // The rest of the state: the instance, whether it is configured, and whether it drops.
      ensures var live := old(decoder).Some? && !mood.closedItself;
              var ready := live && old(configured);
              && (decoder, instances) == (if live then (old(decoder), old(instances))
                                          else (Some(old(instances)), old(instances) + 1))
              && if !ready && (!p.keyframe || mood.configureThrows)
                 then !configured && dropUntilKey == (live && old(dropUntilKey)) && keyRequests == old(keyRequests)
                 else if !p.keyframe && old(dropUntilKey)
                 then configured && dropUntilKey && keyRequests == old(keyRequests)
                 else
                   var backlogged := mood.queueSize > 20 && !p.keyframe;
                   && dropUntilKey == (backlogged || mood.throws) && configured == (backlogged || !mood.throws)
                   && keyRequests == old(keyRequests) + (if dropUntilKey then 1 else 0)
      // Any other delta is dropped silently.
      ensures !p.keyframe && (!old(configured) || old(dropUntilKey) || mood.closedItself) ==>
                handed == old(handed) && keyRequests == old(keyRequests)
    {
      hide ReferenceChain, Owned;
      Reopened(pending, outputs, released, painted, closed);
      closed := false;
      RenewDecoder(mood.closedItself);
      next := next + 1;
      if !configured {
        if !p.keyframe || mood.configureThrows { return; }
        configured := true;
      }
      if p.keyframe {
        dropUntilKey := false;
      } else if dropUntilKey {
        return;
      }
      Decode(p, mood);
    }

    method RenewDecoder(closedItself: bool)
      requires InChain(decoder, configured, dropUntilKey, instances, handed, stream, next)
      modifies this`decoder, this`configured, this`dropUntilKey, this`instances
      ensures InChain(decoder, configured, dropUntilKey, instances, handed, stream, next) && decoder.Some?
      ensures if old(decoder).Some? && !closedItself
              then decoder == old(decoder) && configured == old(configured) && dropUntilKey == old(dropUntilKey) &&
                   instances == old(instances)
              else !configured && !dropUntilKey && decoder == Some(old(instances)) && instances == old(instances) + 1
    {
      if decoder.None? || closedItself {
        decoder := Some(instances);
        instances := instances + 1;
        configured, dropUntilKey := false, false;
      }
    }

    method Decode(p: Packet, mood: Mood)
      requires configured && !dropUntilKey && decoder.Some? && decoder.value < instances
      requires ReferenceChain(handed)
      requires p.keyframe || InChain(decoder, true, false, instances, handed, stream, p.index)
      modifies this`configured, this`dropUntilKey, this`keyRequests, this`handed
      ensures InChain(decoder, configured, dropUntilKey, instances, handed, stream, p.index + 1)
      ensures var refused := (mood.queueSize > 20 && !p.keyframe) || mood.throws;
              && dropUntilKey == refused
              && (!refused ==> configured)
              && configured == ((mood.queueSize > 20 && !p.keyframe) || !mood.throws)
              && handed == (if refused then old(handed) else old(handed) + [Handed(decoder.value, stream, p)])
              && keyRequests == old(keyRequests) + (if refused then 1 else 0)
    {
      hide ReferenceChain;
      if mood.queueSize > 20 && !p.keyframe {
        StartDropping();
        return;
      }
      if mood.throws {
        configured := false;
        StartDropping();
        return;
      }
      HandOver(decoder.value, instances, handed, stream, p);
      handed := handed + [Handed(decoder.value, stream, p)];
    }

    /** Enters drop-until-keyframe, asking the host for one once per episode. */
    method StartDropping()
      modifies this`dropUntilKey, this`keyRequests
      ensures dropUntilKey && keyRequests == old(keyRequests) + (if old(dropUntilKey) then 0 else 1)
    {
      if !dropUntilKey { keyRequests := keyRequests + 1; }
      dropUntilKey := true;
    }

    /** The error callback, of whichever instance: whatever decoder is in use is given up. */
    method OnError()
      requires Valid()
      modifies this`decoder, this`configured
      ensures Valid() && decoder == None && !configured
    {
      configured := false;
      decoder := None;
    }

    /** The output callback. */
    method OnDecoded(timestamp: int)
      requires Valid()
      modifies this`pending, this`raf, this`outputs, this`released
      ensures Valid() && outputs == old(outputs) + 1
      ensures old(closed) ==> pending == []
      ensures !old(closed) ==> pending != [] && pending[|pending| - 1] == Frame(old(outputs), timestamp) && raf
      ensures |pending| <= 3
      ensures !old(closed) ==>
                pending == if |old(pending)| < 3 then old(pending) + [Frame(old(outputs), timestamp)]
                           else old(pending)[|old(pending)| - 2..] + [Frame(old(outputs), timestamp)]
    {
      hide ReferenceChain, InChain, Increasing;
      var frame := Frame(outputs, timestamp);
      outputs := outputs + 1;
      OneMoreId(frame.id);
      if closed {
        released := released + [frame.id];
        return;
      }
      pending := pending + [frame];
      Shed();
      raf := true;
    }

    /** Closes the oldest pending frames, down to three. */
    method Shed()
      requires |pending| <= outputs && released == FirstIds(outputs - |pending|)
      requires forall i :: 0 <= i < |pending| ==> pending[i].id == outputs - |pending| + i
      modifies this`pending, this`released
      ensures pending == if |old(pending)| <= 3 then old(pending) else old(pending)[|old(pending)| - 3..]
      ensures released == FirstIds(outputs - |pending|)
    {
      while |pending| > MAX_PENDING
        invariant |pending| <= |old(pending)| && pending == old(pending)[|old(pending)| - |pending|..]
        invariant |pending| >= 3 || |pending| == |old(pending)|
        invariant released == FirstIds(outputs - |pending|)
        decreases |pending|
      {
        OneMoreId(outputs - |pending|);
        released := released + [pending[0].id];
        pending := pending[1..];
      }
    }

    /** The animation frame: frames older than the one chosen are closed unpainted, the chosen
        one is drawn and closed. */
    method PaintDue(clock: Option<int>, hasContext: bool)
      requires Valid()
      modifies this`pending, this`raf, this`released, this`painted
      ensures Valid()
      ensures var best := if old(closed) then None else PaintIndex(Timestamps(old(pending)), clock);
              var n := if best.None? then 0 else best.value + 1;
              && pending == old(pending)[n..]
              && painted == (if n > 0 && hasContext then old(painted) + [old(pending)[n - 1].id] else old(painted))
              && raf == (!old(closed) && (best.None? || pending != []))
      // Once the clock has reached the newest frame, or without a clock, nothing stays behind.
      ensures !old(closed) && old(pending) != [] && Due(clock, old(pending)[|old(pending)| - 1].timestamp) ==>
                pending == [] && (hasContext ==> painted == old(painted) + [old(pending)[|old(pending)| - 1].id])
    {
      hide InChain, Owned, PaintIndex, Due, NewestDue;
      DueIsNewest(Timestamps(pending), clock);
      raf := false;
      if closed { return; }
      var best := ChoosePaintIndex(Timestamps(pending), clock);
      if best.None? {
        raf := true;  // nothing due yet
        return;
      }
      PaintChosen(best.value, hasContext);
      if |pending| > 0 { raf := true; }
    }

    method PaintChosen(n: nat, hasContext: bool)
      requires InOrder() && !closed && n < |pending|
      modifies this`pending, this`released, this`painted
      ensures InOrder() && pending == old(pending)[n + 1..]
      ensures painted == if hasContext then old(painted) + [old(pending)[n].id] else old(painted)
    {
      hide InChain, Increasing;
      Painted(pending, n, outputs, released, painted, hasContext);
      DropStale(n);
      var f := pending[0];
      assert pending[1..] == old(pending)[n + 1..];
      pending := pending[1..];
      Draw(f, hasContext);
    }

    /** Closes the n oldest pending frames. */
    method DropStale(n: nat)
      requires n <= |pending| <= outputs && released == FirstIds(outputs - |pending|)
      requires forall i :: 0 <= i < |pending| ==> pending[i].id == outputs - |pending| + i
      modifies this`pending, this`released
      ensures pending == old(pending)[n..] && released == FirstIds(outputs - |pending|)
    {
      for i := 0 to n
        invariant pending == old(pending)[i..] && released == FirstIds(outputs - |pending|)
      {
        OneMoreId(outputs - |pending|);
        released := released + [pending[0].id];
        pending := pending[1..];
      }
    }

    method Draw(f: Frame, hasContext: bool)
      requires !closed
      modifies this`released, this`painted
      ensures released == old(released) + [f.id]
      ensures painted == if hasContext then old(painted) + [f.id] else old(painted)
    {
      released := released + [f.id];
      if hasContext { painted := painted + [f.id]; }
    }

    /** Everything pending is closed and the decoder given up. Packets may still come. */
    method Close()
      requires Valid()
      modifies this`closed, this`raf, this`released, this`pending, this`decoder, this`configured, this`dropUntilKey
      ensures Valid() && closed && !raf && pending == [] && decoder == None && painted == old(painted)
    {
      hide ReferenceChain, Increasing;
      closed, raf := true, false;
      for i := 0 to |pending|
        invariant closed && !raf && pending == old(pending)
        invariant released == FirstIds(outputs - |pending| + i)
      {
        OneMoreId(outputs - |pending| + i);
        released := released + [pending[i].id];
      }
      pending := [];
      decoder, configured, dropUntilKey := None, false, false;
    }

    /** A new connection: its packets are numbered from 0 again. */
    ghost method NewStream()
      requires Valid() && decoder == None
      modifies this`stream, this`next
      ensures Valid() && stream == old(stream) + 1 && next == 0
    {
      stream, next := stream + 1, 0;
    }
  }

  function Timestamps(fs: seq<Frame>): (r: seq<int>)
    ensures |r| == |fs| && forall i :: 0 <= i < |r| ==> r[i] == fs[i].timestamp
  {
    seq(|fs|, i requires 0 <= i < |fs| => fs[i].timestamp)
  }

  // ----- End to end --------------------------------------------------------

  datatype BrowserEvent =
    | Deliver(mood: Mood)
    | DecoderError
    | Output(timestamp: int)
    | AnimationFrame(clock: Option<int>, hasContext: bool)
    | Closing

  /** One connection: what the host's loop meets, and what happens in the browser. */
  datatype Connection = Connection(turns: seq<Turn>, flushed: seq<StreamLoop.Output>, flushOk: nat, fps: int, kbps: int,
                                   events: seq<BrowserEvent>)

  /** What the host did of it: how many turns, whether the link held, what was sent and encoded. */
  datatype Stream = Stream(n: nat, up: bool, sent: seq<Packet>, encoded: seq<Packet>)

  /** The stream is what the frame loop makes of the connection. */
  ghost predicate StreamOf(c: Connection, s: Stream) {
    Ran(c.turns, c.flushed, c.flushOk, c.fps, c.kbps, s.n, s.sent, s.up, s.encoded)
  }

  /** Everything handed over is a packet that was sent, at its place in its stream. */
  ghost predicate FromStreams(log: seq<Handed>, streams: seq<Stream>) {
    forall k :: 0 <= k < |log| ==>
      log[k].stream < |streams| && log[k].packet.index < |streams[log[k].stream].sent| &&
      streams[log[k].stream].sent[log[k].packet.index] == log[k].packet
  }

  /** The k-th packet handed is from some stream, and if it is a delta, the packet just before it
      in that stream was handed just before it, to the same instance. */
  ghost predicate FollowsStream(log: seq<Handed>, k: nat, streams: seq<Stream>)
    requires k < |log| && FromStreams(log, streams)
  {
    var h := log[k];
    !h.packet.keyframe ==>
      && k > 0 && h.packet.index > 0
      && log[k - 1] == Handed(h.instance, h.stream, streams[h.stream].sent[h.packet.index - 1])
  }

  ghost predicate Given(log: seq<Handed>, stream: nat, p: Packet) {
    exists k :: 0 <= k < |log| && log[k].stream == stream && log[k].packet == p
  }

  lemma StillGiven(log: seq<Handed>, more: seq<Handed>)
    requires log <= more
    ensures forall j: nat, p :: Given(log, j, p) ==> Given(more, j, p)
  {
    forall j: nat, p | Given(log, j, p) ensures Given(more, j, p) {
      var k :| 0 <= k < |log| && log[k].stream == j && log[k].packet == p;
      assert more[k] == log[k];
    }
  }

  predicate Willing(mood: Mood) {
    !mood.configureThrows && !mood.throws
  }

  /** Nothing happens but deliveries to a decoder that works and keeps up, output and painting. */
  predicate Undisturbed(events: seq<BrowserEvent>) {
    forall e <- events :: Calm(e)
  }

  predicate Calm(e: BrowserEvent) {
    match e
    case Deliver(mood) => Willing(mood) && !mood.closedItself && mood.queueSize <= 20
    case Output(_) => true
    case AnimationFrame(_, _) => true
    case _ => false
  }

  function Deliveries(events: seq<BrowserEvent>): nat {
    if events == [] then 0
    else Deliveries(events[..|events| - 1]) + if events[|events| - 1].Deliver? then 1 else 0
  }

  function Outputs(events: seq<BrowserEvent>): nat {
    if events == [] then 0
    else Outputs(events[..|events| - 1]) + if events[|events| - 1].Output? then 1 else 0
  }

  // What the viewer sees.

  /** The state of the pipeline as far as frames go. */
  datatype Eye = Eye(pending: seq<Frame>, painted: seq<nat>, outputs: nat, closed: bool)

  /** What an event does to it; `moved` says whether a delivery found a packet. */
  ghost predicate Looks(e: BrowserEvent, moved: bool, was: Eye, now: Eye) {
    && was.painted <= now.painted && now.outputs == was.outputs + (if e.Output? then 1 else 0)
    && match e
       case Deliver(_) => now.pending == was.pending && now.closed == (if moved then false else was.closed)
       case DecoderError => now.pending == was.pending && now.closed == was.closed
       case Output(ts) =>
         now.closed == was.closed &&
         (!was.closed ==> now.pending != [] && now.pending[|now.pending| - 1] == Frame(was.outputs, ts))
       case AnimationFrame(clock, hasContext) =>
         now.closed == was.closed &&
         (was.pending != [] && !was.closed ==>
            var f := was.pending[|was.pending| - 1];
            if now.pending != [] then now.pending[|now.pending| - 1] == f && !Due(clock, f.timestamp)
            else hasContext ==> f.id in now.painted)
       case Closing => now.closed && now.pending == []
  }

  /** Whether the pipeline is closed after some events of a connection that sent `total` packets. */
  function ClosedAfter(events: seq<BrowserEvent>, total: nat, start: bool): bool {
    if events == [] then start
    else
      var front := events[..|events| - 1];
      match events[|events| - 1]
      case Closing => true
      case Deliver(_) => if Deliveries(front) < total then false else ClosedAfter(front, total, start)
      case _ => ClosedAfter(front, total, start)
  }

  /** The newest frame put out while open, as its number and time, if no close and no animation
      frame without a canvas has come since. */
  function Newest(events: seq<BrowserEvent>, total: nat, start: bool): Option<(nat, int)> {
    if events == [] then None
    else
      var front := events[..|events| - 1];
      match events[|events| - 1]
      case Output(ts) => if ClosedAfter(front, total, start) then None else Some((Outputs(front), ts))
      case Closing => None
      case AnimationFrame(_, hasContext) => if hasContext then Newest(front, total, start) else None
      case _ => Newest(front, total, start)
  }

  /** The newest frame has been painted, or is the last one waiting. */
  ghost predicate InSight(eye: Eye, base: nat, newest: Option<(nat, int)>) {
    newest.Some? ==>
      && !eye.closed
      && (base + newest.value.0 in eye.painted ||
          (eye.pending != [] && eye.pending[|eye.pending| - 1] == Frame(base + newest.value.0, newest.value.1)))
  }

  /** Every animation frame whose clock has reached the newest frame has it painted. */
  ghost predicate OnTime(painted: seq<nat>, base: nat, events: seq<BrowserEvent>, total: nat, start: bool) {
    forall i: nat | i < |events| && events[i].AnimationFrame? && events[i].hasContext ::
      var newest := Newest(events[..i], total, start);
      newest.Some? && Due(events[i].clock, newest.value.1) ==> base + newest.value.0 in painted
  }

  lemma StillOnTime(painted: seq<nat>, more: seq<nat>, base: nat, events: seq<BrowserEvent>, total: nat, start: bool)
    requires painted <= more && OnTime(painted, base, events, total, start)
    ensures OnTime(more, base, events, total, start)
  {
    forall x | x in painted ensures x in more {
      var k :| 0 <= k < |painted| && painted[k] == x;
      assert more[k] == x;
    }
  }

  lemma SeenNext(events: seq<BrowserEvent>, i: nat, total: nat, start: bool, base: nat, was: Eye, now: Eye)
    requires i < |events| && Looks(events[i], Deliveries(events[..i]) < total, was, now)
    requires was.closed == ClosedAfter(events[..i], total, start) && was.outputs == base + Outputs(events[..i])
    requires InSight(was, base, Newest(events[..i], total, start)) && OnTime(was.painted, base, events[..i], total, start)
    ensures now.closed == ClosedAfter(events[..i + 1], total, start)
    ensures InSight(now, base, Newest(events[..i + 1], total, start))
    ensures OnTime(now.painted, base, events[..i + 1], total, start)
  {
    hide Due, Newest, OnTime, InSight;
    var all := events[..i + 1];
    assert all[..i] == events[..i] && all[i] == events[i];
    forall x | x in was.painted ensures x in now.painted {
      var k :| 0 <= k < |was.painted| && was.painted[k] == x;
      assert now.painted[k] == x;
    }
    SightAfter(all, total, start, base, was, now);
    OnTimeAfter(all, total, start, base, was, now);
  }

  lemma SightAfter(all: seq<BrowserEvent>, total: nat, start: bool, base: nat, was: Eye, now: Eye)
    requires all != []
    requires var front, e := all[..|all| - 1], all[|all| - 1];
             && Looks(e, Deliveries(front) < total, was, now) && was.outputs == base + Outputs(front)
             && was.closed == ClosedAfter(front, total, start) && InSight(was, base, Newest(front, total, start))
    requires forall x | x in was.painted :: x in now.painted
    ensures InSight(now, base, Newest(all, total, start))
  {
    hide Due, ClosedAfter, Deliveries, Outputs;
    var front, e := all[..|all| - 1], all[|all| - 1];
    SightNext(e, Deliveries(front) < total, was, now, base, Newest(front, total, start));
  }

  lemma OnTimeAfter(all: seq<BrowserEvent>, total: nat, start: bool, base: nat, was: Eye, now: Eye)
    requires all != []
    requires var front, e := all[..|all| - 1], all[|all| - 1];
             && Looks(e, Deliveries(front) < total, was, now) && InSight(was, base, Newest(front, total, start))
             && OnTime(was.painted, base, front, total, start)
    requires forall x | x in was.painted :: x in now.painted
    ensures OnTime(now.painted, base, all, total, start)
  {
    hide Due, ClosedAfter, Deliveries, Outputs, Newest, InSight, Looks;
    var n := |all| - 1;
    var front, e := all[..n], all[n];
    SightNext(e, Deliveries(front) < total, was, now, base, Newest(front, total, start));
    forall k: nat | k < |all| && all[k].AnimationFrame? && all[k].hasContext
      ensures var newest := Newest(all[..k], total, start);
              newest.Some? && Due(all[k].clock, newest.value.1) ==> base + newest.value.0 in now.painted
    {
      if k < n { assert all[..k] == front[..k] && all[k] == front[k]; }
    }
  }

  lemma SightNext(e: BrowserEvent, moved: bool, was: Eye, now: Eye, base: nat, newest: Option<(nat, int)>)
    requires Looks(e, moved, was, now) && InSight(was, base, newest)
    requires forall x | x in was.painted :: x in now.painted
    ensures !e.Output? && !e.Closing? && !(e.AnimationFrame? && !e.hasContext) ==> InSight(now, base, newest)
    ensures e.AnimationFrame? && e.hasContext && newest.Some? && Due(e.clock, newest.value.1) ==>
              base + newest.value.0 in now.painted
  {
  }

  function AllOutputs(connections: seq<Connection>): nat {
    if connections == [] then 0
    else AllOutputs(connections[..|connections| - 1]) + Outputs(connections[|connections| - 1].events)
  }

  /** What a connection's events up to the i-th must have brought to a decoder: every keyframe it
      was willing to take, and, if nothing disturbed a stream that starts with a keyframe, every
      packet delivered. */
  ghost predicate Served(log: seq<Handed>, j: nat, events: seq<BrowserEvent>, sent: seq<Packet>) {
    && (forall e: nat | e < |events| && events[e].Deliver? && Willing(events[e].mood) ::
          var m := Deliveries(events[..e]);
          m < |sent| && sent[m].keyframe ==> Given(log, j, sent[m]))
    && (Undisturbed(events) && sent != [] && sent[0].keyframe ==>
          forall m: nat | m < |sent| && m < Deliveries(events) :: Given(log, j, sent[m]))
  }

  lemma StillServed(log: seq<Handed>, more: seq<Handed>, j: nat, events: seq<BrowserEvent>, sent: seq<Packet>)
    requires log <= more && Served(log, j, events, sent)
    ensures Served(more, j, events, sent)
  {
    hide Given, Undisturbed;
    StillGiven(log, more);
  }

  /** One event more; `given` is what it handed over, if anything. */
  lemma ServedNext(log: seq<Handed>, more: seq<Handed>, j: nat, events: seq<BrowserEvent>, i: nat, sent: seq<Packet>)
    requires i < |events| && log <= more && Served(log, j, events[..i], sent)
    requires var m := Deliveries(events[..i]);
             events[i].Deliver? && m < |sent| ==>
               (Willing(events[i].mood) && sent[m].keyframe) || (Undisturbed(events[..i + 1]) && sent[0].keyframe) ==>
                 Given(more, j, sent[m])
    ensures Served(more, j, events[..i + 1], sent)
  {
    hide Given;
    StillGiven(log, more);
    var now := events[..i + 1];
    assert now[..i] == events[..i];
    forall e: nat | e < i ensures now[..e] == events[..i][..e] {}
    assert Undisturbed(now) ==> Undisturbed(events[..i]) by {
      forall e | e in events[..i] ensures e in now {}
    }
  }

  /** Host and browser together, over any number of connections, closed and taken up again at any
      point. Each stream is what the frame loop makes of its connection. What a decoder is given
      was sent, no delta is ever given to a decoder that did not get the packet just before it,
      and what a decoder is willing to take it gets. Every decoded frame is closed exactly once,
      painted frames appear in decode order, and the newest is painted as soon as an animation
      frame finds it due. */
  method EndToEnd(connections: seq<Connection>) returns (pipe: VideoPipeline, ghost streams: seq<Stream>)
    ensures |streams| == |connections|
    ensures forall j :: 0 <= j < |streams| ==> Honoured(connections, streams, j, pipe.handed, pipe.painted)
    ensures FromStreams(pipe.handed, streams)
    ensures forall k :: 0 <= k < |pipe.handed| ==> FollowsStream(pipe.handed, k, streams)
    ensures pipe.outputs == AllOutputs(connections)
    ensures pipe.pending == [] && pipe.released == FirstIds(pipe.outputs)
    ensures Increasing(pipe.painted)
  {
    hide ReferenceChain, InChain, Owned, FromStreams, AllNumbered, FollowsStream, Increasing, Honoured, Served, StreamOf,
         Outputs, OnTime;
    pipe := new VideoPipeline();
    streams := [];
    NothingHanded();
    for i := 0 to |connections|
      invariant fresh(pipe) && pipe.Valid() && pipe.pending == [] && pipe.decoder == None
      invariant |streams| == i == pipe.stream && pipe.next == 0
      invariant FromStreams(pipe.handed, streams) && AllNumbered(streams)
      invariant pipe.outputs == AllOutputs(connections[..i]) && pipe.closed == (i > 0)
      invariant forall j :: 0 <= j < i ==> Honoured(connections, streams, j, pipe.handed, pipe.painted)
    {
      ghost var log, painted := pipe.handed, pipe.painted;
      ghost var one := Connected(pipe, connections[i], streams);
      OneMoreStream(streams, one);
      assert connections[..i + 1][..i] == connections[..i];
      HonouredMore(connections, streams, one, log, pipe.handed, painted, pipe.painted);
      streams := streams + [one];
      pipe.NewStream();
    }
    assert connections[..|connections|] == connections;
    AllReleased(pipe.decoder, pipe.configured, pipe.dropUntilKey, pipe.instances, pipe.handed, pipe.stream, pipe.next,
                pipe.outputs, pipe.released, pipe.painted, pipe.closed);
    ChainInStream(pipe.handed, streams);
  }

  /** Connection j: its stream is what the frame loop makes of it, decoders got what they were
      willing to take, and the newest frame was painted when it was due. */
  ghost predicate Honoured(connections: seq<Connection>, streams: seq<Stream>, j: nat, log: seq<Handed>, painted: seq<nat>)
  {
    && j < |connections| && j < |streams|
    && StreamOf(connections[j], streams[j])
    && Served(log, j, connections[j].events, streams[j].sent)
    && OnTime(painted, AllOutputs(connections[..j]), connections[j].events, |streams[j].sent|, j > 0)
  }

  lemma HonouredMore(connections: seq<Connection>, streams: seq<Stream>, one: Stream, log: seq<Handed>, log2: seq<Handed>,
                     painted: seq<nat>, painted2: seq<nat>)
    requires |streams| < |connections| && log <= log2 && painted <= painted2
    requires forall j :: 0 <= j < |streams| ==> Honoured(connections, streams, j, log, painted)
    requires var j := |streams|;
             && StreamOf(connections[j], one) && Served(log2, j, connections[j].events, one.sent)
             && OnTime(painted2, AllOutputs(connections[..j]), connections[j].events, |one.sent|, j > 0)
    ensures forall j :: 0 <= j <= |streams| ==> Honoured(connections, streams + [one], j, log2, painted2)
  {
    hide StreamOf, Served, OnTime, AllOutputs;
    forall j | 0 <= j < |streams| ensures Honoured(connections, streams + [one], j, log2, painted2) {
      assert Honoured(connections, streams, j, log, painted) && (streams + [one])[j] == streams[j];
      StillServed(log, log2, j, connections[j].events, streams[j].sent);
      StillOnTime(painted, painted2, AllOutputs(connections[..j]), connections[j].events, |streams[j].sent|, j > 0);
    }
  }

  lemma NothingHanded()
    ensures FromStreams([], []) && AllNumbered([])
  {
  }

  lemma OneMoreStream(streams: seq<Stream>, one: Stream)
    requires AllNumbered(streams) && forall i :: 0 <= i < |one.sent| ==> one.sent[i].index == i
    ensures AllNumbered(streams + [one])
  {
  }

  lemma AllReleased(decoder: Option<nat>, configured: bool, dropUntilKey: bool, instances: nat, handed: seq<Handed>,
                    stream: nat, next: nat, outputs: nat, released: seq<nat>, painted: seq<nat>, closed: bool)
    requires InChain(decoder, configured, dropUntilKey, instances, handed, stream, next)
    requires Owned([], outputs, released, painted, closed)
    ensures ReferenceChain(handed) && released == FirstIds(outputs) && Increasing(painted)
  {
  }

  ghost predicate AllNumbered(streams: seq<Stream>) {
    forall j :: 0 <= j < |streams| ==> forall i :: 0 <= i < |streams[j].sent| ==> streams[j].sent[i].index == i
  }

  /** One connection, closed at the end. */
  method Connected(pipe: VideoPipeline, c: Connection, ghost before: seq<Stream>) returns (ghost one: Stream)
    requires pipe.Valid() && pipe.stream == |before| && pipe.next == 0 && FromStreams(pipe.handed, before)
    modifies pipe
    ensures pipe.Valid() && pipe.pending == [] && pipe.decoder == None && pipe.stream == |before|
    ensures StreamOf(c, one) && old(pipe.handed) <= pipe.handed
    ensures FromStreams(pipe.handed, before + [one])
    ensures Served(pipe.handed, |before|, c.events, one.sent)
    ensures pipe.outputs == old(pipe.outputs) + Outputs(c.events) && pipe.closed && old(pipe.painted) <= pipe.painted
    ensures OnTime(pipe.painted, old(pipe.outputs), c.events, |one.sent|, old(pipe.closed))
    ensures forall i :: 0 <= i < |one.sent| ==> one.sent[i].index == i
  {
    hide ReferenceChain, InChain, Owned, Served, Ran, FromStreams, Undisturbed, OnTime, InSight, Looks, Newest, ClosedAfter;
    var sent, linkUp;
    ghost var encoded, n;
    sent, linkUp, encoded, n := RunUntil(c.turns, c.flushed, c.flushOk, c.fps, c.kbps);
    one := Stream(n, linkUp, sent, encoded);
    RanNumbers(c.turns, c.flushed, c.flushOk, c.fps, c.kbps, n, sent, linkUp, encoded);
    StreamBegins(pipe.handed, before, one, c.events);
    NothingSeen(pipe.painted, pipe.outputs, c.events, |sent|, pipe.closed,
                Eye(pipe.pending, pipe.painted, pipe.outputs, pipe.closed));
    var arrived := 0;
    for i := 0 to |c.events|
      invariant pipe.Valid() && pipe.stream == |before| && old(pipe.handed) <= pipe.handed
      invariant arrived <= |sent| && pipe.next == arrived
      invariant arrived == if Deliveries(c.events[..i]) < |sent| then Deliveries(c.events[..i]) else |sent|
      invariant pipe.outputs == old(pipe.outputs) + Outputs(c.events[..i])
      invariant FromStreams(pipe.handed, before + [one])
      invariant Served(pipe.handed, |before|, c.events[..i], sent)
      invariant old(pipe.painted) <= pipe.painted
      invariant pipe.closed == ClosedAfter(c.events[..i], |sent|, old(pipe.closed))
      invariant InSight(Eye(pipe.pending, pipe.painted, pipe.outputs, pipe.closed), old(pipe.outputs),
                        Newest(c.events[..i], |sent|, old(pipe.closed)))
      invariant OnTime(pipe.painted, old(pipe.outputs), c.events[..i], |sent|, old(pipe.closed))
      invariant Undisturbed(c.events[..i]) && arrived > 0 && sent[0].keyframe ==>
                  pipe.configured && !pipe.dropUntilKey && pipe.decoder.Some?
    {
      ghost var log, eye := pipe.handed, Eye(pipe.pending, pipe.painted, pipe.outputs, pipe.closed);
      assert c.events[..i + 1][..i] == c.events[..i];
      CalmSoFar(c.events, i);
      arrived := Happen(pipe, c.events[i], arrived, before, one, sent);
      SeenNext(c.events, i, |sent|, old(pipe.closed), old(pipe.outputs), eye,
               Eye(pipe.pending, pipe.painted, pipe.outputs, pipe.closed));
      ServedNext(log, pipe.handed, |before|, c.events, i, sent);
    }
    assert c.events[..|c.events|] == c.events;
    pipe.Close();
  }

  /** One thing that happens in the browser; packets arrive in order while there are any. */
  method Happen(pipe: VideoPipeline, e: BrowserEvent, arrived: nat, ghost before: seq<Stream>, ghost one: Stream,
                sent: seq<Packet>)
    returns (now: nat)
    requires pipe.Valid() && pipe.stream == |before| && FromStreams(pipe.handed, before + [one])
    requires pipe.next == arrived <= |sent| && sent == one.sent && forall i :: 0 <= i < |sent| ==> sent[i].index == i
    modifies pipe
    ensures pipe.Valid() && pipe.stream == |before| && pipe.next == now && old(pipe.handed) <= pipe.handed
    ensures FromStreams(pipe.handed, before + [one])
    ensures now == if e.Deliver? && arrived < |sent| then arrived + 1 else arrived
    ensures pipe.outputs == old(pipe.outputs) + (if e.Output? then 1 else 0) && old(pipe.painted) <= pipe.painted
    ensures Looks(e, arrived < |sent|, old(Eye(pipe.pending, pipe.painted, pipe.outputs, pipe.closed)),
                  Eye(pipe.pending, pipe.painted, pipe.outputs, pipe.closed))
    ensures e.Deliver? && arrived < |sent| && Willing(e.mood) && sent[arrived].keyframe ==>
              Given(pipe.handed, |before|, sent[arrived])
    ensures var ready := old(pipe.configured) && !old(pipe.dropUntilKey) && old(pipe.decoder).Some?;
            && (Calm(e) && ready ==>
                  pipe.configured && !pipe.dropUntilKey && pipe.decoder.Some?
                  && (e.Deliver? && arrived < |sent| ==> Given(pipe.handed, |before|, sent[arrived])))
            && (Calm(e) && e.Deliver? && arrived < |sent| && sent[arrived].keyframe ==>
                  pipe.configured && !pipe.dropUntilKey && pipe.decoder.Some?)
  {
    hide ReferenceChain, InChain, Owned, FromStreams, Given, Due, PaintIndex;
    now := arrived;
    match e {
      case Deliver(mood) =>
        if arrived < |sent| {
          ghost var log := pipe.handed;
          pipe.Submit(sent[arrived], mood);
          HandedOver(log, pipe.handed, before, one, sent[arrived]);
          now := arrived + 1;
        }
      case DecoderError => pipe.OnError();
      case Output(timestamp) => pipe.OnDecoded(timestamp);
      case AnimationFrame(clock, hasContext) =>
        if pipe.raf { pipe.PaintDue(clock, hasContext); }
      case Closing => pipe.Close();
    }
  }

  lemma NothingSeen(painted: seq<nat>, base: nat, events: seq<BrowserEvent>, total: nat, start: bool, eye: Eye)
    ensures OnTime(painted, base, events[..0], total, start) && InSight(eye, base, Newest(events[..0], total, start))
    ensures ClosedAfter(events[..0], total, start) == start && Deliveries(events[..0]) == 0 == Outputs(events[..0])
  {
  }

  lemma StreamBegins(log: seq<Handed>, before: seq<Stream>, one: Stream, events: seq<BrowserEvent>)
    requires FromStreams(log, before)
    ensures FromStreams(log, before + [one]) && Served(log, |before|, events[..0], one.sent)
  {
  }

  lemma CalmSoFar(events: seq<BrowserEvent>, i: nat)
    requires i < |events|
    ensures Undisturbed(events[..i + 1]) <==> Undisturbed(events[..i]) && Calm(events[i])
  {
    assert events[..i + 1] == events[..i] + [events[i]];
  }

  /** A packet of the stream being received, handed over or not. */
  lemma HandedOver(log: seq<Handed>, more: seq<Handed>, before: seq<Stream>, one: Stream, p: Packet)
    requires FromStreams(log, before + [one])
    requires p.index < |one.sent| && one.sent[p.index] == p
    requires more == log || exists d: nat :: more == log + [Handed(d, |before|, p)]
    ensures FromStreams(more, before + [one]) && log <= more
    ensures more != log ==> Given(more, |before|, p)
  {
    if more != log {
      assert more[|log|].stream == |before| && more[|log|].packet == p;
    }
  }

  lemma ChainInStream(log: seq<Handed>, streams: seq<Stream>)
    requires ReferenceChain(log) && FromStreams(log, streams) && AllNumbered(streams)
    ensures forall k :: 0 <= k < |log| ==> FollowsStream(log, k, streams)
  {
    forall k | 0 <= k < |log|
      ensures FollowsStream(log, k, streams)
    {
      if !log[k].packet.keyframe {
        var q := log[k - 1];
        assert streams[q.stream].sent[q.packet.index] == q.packet;
      }
    }
  }
}

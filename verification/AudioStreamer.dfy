/** host/src/audio_streamer.cpp and host/src/audio_latency.h: captured audio between the reader
    thread and the stream loop, held to a latency budget by dropping the oldest. */
module AudioStreaming {
  import opened Bytes

  const BYTES_PER_SEC: nat := 48000 * 4
  const MAX_QUEUE_MS: nat := 200
  const READ_SIZE: nat := 4096

  function MaxQueueBytes(): nat {
    BYTES_PER_SEC * MAX_QUEUE_MS / 1000
  }

  /** Bytes to drop so that a backlog over the budget falls to half of it. */
  function OverflowDrop(queued: nat): nat {
    if queued <= MaxQueueBytes() then 0 else queued - MaxQueueBytes() / 2
  }

  /** How many chunks go, oldest first, until at least `drop` bytes are gone. */
  function FirstKept(q: seq<seq<byte>>, drop: int): (n: nat)
    ensures n <= |q|
  {
    if q == [] || drop <= 0 then 0 else 1 + FirstKept(q[1..], drop - |q[0]|)
  }

  /** The queue after a read: what an overflow leaves of it. */
  function Trimmed(q: seq<seq<byte>>): seq<seq<byte>> {
    q[FirstKept(q, OverflowDrop(TotalBytes(q)))..]
  }

  class AudioStreamer {
    var queue: seq<seq<byte>>
    var queuedBytes: nat
    var droppedBytes: nat
    ghost var captured: seq<byte>  // everything ever read
    ghost var drained: nat         // bytes handed to the stream loop

    ghost predicate Valid()
      reads this
    {
      && queuedBytes == |Concat(queue)| <= MaxQueueBytes()
      && (forall i :: 0 <= i < |queue| ==> 0 < |queue[i]| <= READ_SIZE)
      && drained + droppedBytes + queuedBytes == |captured|
      && Concat(queue) == captured[|captured| - queuedBytes..]
    }

    constructor ()
      ensures Valid() && queue == [] && captured == [] && drained == 0 && droppedBytes == 0
    {
      queue, queuedBytes, droppedBytes, captured, drained := [], 0, 0, [], 0;
    }

    /** One read of the reader loop, under the lock. */
    method Read(chunk: seq<byte>)
      requires Valid() && 0 < |chunk| <= READ_SIZE
      modifies this
      ensures Valid() && captured == old(captured) + chunk && drained == old(drained)
      ensures queue == Trimmed(old(queue) + [chunk])
      // Within the budget nothing is dropped; over it the queue falls to about half.
      ensures old(queuedBytes) + |chunk| <= 38400 ==>
                queue == old(queue) + [chunk] && droppedBytes == old(droppedBytes)
      ensures old(queuedBytes) + |chunk| > 38400 ==>
                15104 < queuedBytes <= 19200 && queue != [] && queue[|queue| - 1] == chunk
      // No chunk more than needed went: with the last of them the queue would be over half.
      ensures old(queuedBytes) + |chunk| > 38400 ==>
                var all := old(queue) + [chunk]; var gone := |all| - |queue|;
                gone > 0 && queue == all[gone..] && queuedBytes + |all[gone - 1]| > 19200
    {
      hide Concat, FirstKept, TotalBytes;
      ConcatSnoc(queue, chunk);
      NoneDropped(queue + [chunk]);
      queue := queue + [chunk];
      queuedBytes := queuedBytes + |chunk|;
      captured := captured + chunk;
      assert Concat(queue) == captured[|captured| - queuedBytes..];
      var drop := OverflowDrop(queuedBytes);
      if drop > 0 {
        DropOldest(drop);
        ConcatParts([], 0);
      }
    }

    /** Whole chunks go, oldest first, until at least `drop` bytes are gone. */
    method DropOldest(drop: nat)
      requires queuedBytes == |Concat(queue)| && 0 < drop <= queuedBytes
      requires forall i :: 0 <= i < |queue| ==> 0 < |queue[i]| <= READ_SIZE
      requires queuedBytes <= |captured| && Concat(queue) == captured[|captured| - queuedBytes..]
      modifies this`queue, this`queuedBytes, this`droppedBytes
      ensures queuedBytes == |Concat(queue)|
      ensures old(queuedBytes) - drop - READ_SIZE < queuedBytes <= old(queuedBytes) - drop
      ensures droppedBytes - old(droppedBytes) == old(queuedBytes) - queuedBytes
      ensures |queue| <= |old(queue)| && queue == old(queue)[|old(queue)| - |queue|..]
      ensures queue == old(queue)[FirstKept(old(queue), drop)..]
      ensures Concat(queue) == captured[|captured| - queuedBytes..]
      ensures var gone := |old(queue)| - |queue|;
              gone > 0 && queuedBytes + |old(queue)[gone - 1]| > old(queuedBytes) - drop
    {
      hide Concat;
      var dropped: nat, i: nat := 0, 0;
      var q := queue;
      ConcatParts(q, 0);
      while i < |q| && dropped < drop
        invariant i <= |q| && queuedBytes == old(queuedBytes) && droppedBytes == old(droppedBytes)
        invariant dropped + |Concat(q[i..])| == queuedBytes <= |captured|
        invariant Concat(q[i..]) == captured[|captured| - |Concat(q[i..])|..]
        invariant dropped < drop + READ_SIZE && (i == 0 ==> dropped == 0)
        invariant i > 0 ==> dropped - |q[i - 1]| < drop
        invariant i + FirstKept(q[i..], drop - dropped) == FirstKept(q, drop)
        decreases |q| - i
      {
        ConcatParts(q, i);
        SuffixOfSuffix(captured, q[i], Concat(q[i + 1..]));
        dropped := dropped + |q[i]|;
        i := i + 1;
      }
      ConcatParts(q, i);
      queue := q[i..];
      queuedBytes := queuedBytes - dropped;
      droppedBytes := droppedBytes + dropped;
    }

    /** Everything queued goes to the stream loop. */
    method Drain() returns (out: seq<seq<byte>>, any: bool)
      requires Valid()
      modifies this`queue, this`queuedBytes, this`drained
      ensures Valid() && queue == [] && out == old(queue) && (any <==> out != [])
      ensures Concat(out) == captured[|captured| - old(queuedBytes)..]
      ensures drained == old(drained) + |Concat(out)|
    {
      out := queue;
      if queue == [] {
        return out, false;
      }
      drained := drained + queuedBytes;
      queue, queuedBytes := [], 0;
      any := true;
    }
  }

  lemma SuffixOfSuffix(s: seq<byte>, a: seq<byte>, b: seq<byte>)
    requires |a + b| <= |s| && s[|s| - |a + b|..] == a + b
    ensures s[|s| - |b|..] == b
  {
    assert s[|s| - |a + b|..][|a|..] == s[|s| - |b|..];
  }

  lemma ConcatParts(q: seq<seq<byte>>, i: nat)
    requires i <= |q|
    ensures q[0..] == q
    ensures i < |q| ==> Concat(q[i..]) == q[i] + Concat(q[i + 1..])
    ensures i == |q| ==> q[i..] == [] && Concat(q[i..]) == []
  {
    if i < |q| {
      assert q[i..][1..] == q[i + 1..];
    }
  }

  lemma NoneDropped(q: seq<seq<byte>>)
    ensures FirstKept(q, 0) == 0 && q[0..] == q
  {
  }

  datatype Event = ReadEvent(chunk: seq<byte>) | DrainEvent

  /** The queue after a run. */
  function QueueAfter(events: seq<Event>): seq<seq<byte>> {
    if events == [] then []
    else
      var last := events[|events| - 1];
      if last.ReadEvent? then Trimmed(QueueAfter(events[..|events| - 1]) + [last.chunk]) else []
  }

  /** What the drains of a run handed over: each of them the whole queue. */
  function DrainedBy(events: seq<Event>): seq<byte> {
    if events == [] then []
    else
      var front, last := events[..|events| - 1], events[|events| - 1];
      DrainedBy(front) + if last.DrainEvent? then Concat(QueueAfter(front)) else []
  }

  /** Any interleaving of reads and drains: the drains hand over what was queued then; what was
      drained, what is queued and what was dropped add up to everything captured; and the queue is
      its latest part, within the budget. */
  method Run(events: seq<Event>) returns (a: AudioStreamer, drained: seq<byte>)
    requires forall i :: 0 <= i < |events| && events[i].ReadEvent? ==> 0 < |events[i].chunk| <= READ_SIZE
    ensures a.Valid() && a.queuedBytes <= 38400
    ensures a.captured == CapturedBy(events) && a.queue == QueueAfter(events) && drained == DrainedBy(events)
    ensures |drained| + a.queuedBytes + a.droppedBytes == |CapturedBy(events)|
    ensures a.queuedBytes <= |CapturedBy(events)|
    ensures Concat(a.queue) == CapturedBy(events)[|CapturedBy(events)| - a.queuedBytes..]
  {
    hide Concat, Trimmed, QueueAfter, DrainedBy, CapturedBy;
    a := new AudioStreamer();
    drained := [];
    NoEvents();
    for i := 0 to |events|
      invariant fresh(a) && a.Valid() && |drained| == a.drained
      invariant a.captured == CapturedBy(events[..i]) && a.queue == QueueAfter(events[..i])
      invariant drained == DrainedBy(events[..i])
    {
      OneEvent(events, i);
      match events[i] {
        case ReadEvent(chunk) => a.Read(chunk);
        case DrainEvent =>
          var out, any := a.Drain();
          drained := drained + Concat(out);
      }
    }
    assert events[..|events|] == events;
  }

  lemma NoEvents()
    ensures QueueAfter([]) == [] && DrainedBy([]) == [] && CapturedBy([]) == []
  {
  }

  lemma OneEvent(events: seq<Event>, i: nat)
    requires i < |events|
    ensures var before, now := events[..i], events[..i + 1];
            match events[i]
            case ReadEvent(chunk) =>
              QueueAfter(now) == Trimmed(QueueAfter(before) + [chunk]) && DrainedBy(now) == DrainedBy(before)
              && CapturedBy(now) == CapturedBy(before) + chunk
            case DrainEvent =>
              QueueAfter(now) == [] && DrainedBy(now) == DrainedBy(before) + Concat(QueueAfter(before))
              && CapturedBy(now) == CapturedBy(before)
  {
    hide Concat, Trimmed;
    assert events[..i + 1][..i] == events[..i];
  }

  function TotalBytes(chunks: seq<seq<byte>>): (n: nat)
    ensures n == |Concat(chunks)|
  {
    if chunks == [] then 0 else |chunks[0]| + TotalBytes(chunks[1..])
  }

  function CapturedBy(events: seq<Event>): seq<byte> {
    if events == [] then []
    else
      var last := events[|events| - 1];
      CapturedBy(events[..|events| - 1]) + (if last.ReadEvent? then last.chunk else [])
  }
}

/** web/src/audio-worklet.ts: the ring buffer between the network and the sound card, with
    prebuffering at the start and after every underrun. */
module PcmPlayers {
  import opened Bytes

  /** One stereo frame of samples. */
  type Frame = (int, int)

  const PREBUFFER_FRAMES: nat := 2880  // 60 ms at 48 kHz

  /** The frames of an interleaved chunk from a position on; a missing last sample is silent. */
  function FramesFrom(chunk: seq<int>, pos: nat): (r: seq<Frame>)
    ensures |r| == if pos >= |chunk| then 0 else (|chunk| - pos + 1) / 2
    decreases |chunk| - pos
  {
    if pos >= |chunk| then []
    else [(chunk[pos], if pos + 1 < |chunk| then chunk[pos + 1] else 0)] + FramesFrom(chunk, pos + 2)
  }

  function AllFrames(queue: seq<seq<int>>): seq<Frame> {
    if queue == [] then [] else FramesFrom(queue[0], 0) + AllFrames(queue[1..])
  }

  lemma {:induction false} AllFramesSnoc(queue: seq<seq<int>>, chunk: seq<int>)
    ensures AllFrames(queue + [chunk]) == AllFrames(queue) + FramesFrom(chunk, 0)
  {
    hide FramesFrom;
    if queue != [] {
      AllFramesSnoc(queue[1..], chunk);
      assert (queue + [chunk])[1..] == queue[1..] + [chunk];
      Assoc(FramesFrom(queue[0], 0), AllFrames(queue[1..]), FramesFrom(chunk, 0));
    } else {
      assert (queue + [chunk])[1..] == [];
      assert FramesFrom(chunk, 0) + [] == [] + FramesFrom(chunk, 0);
    }
  }

  function Silence(n: nat): (r: seq<Frame>)
    ensures |r| == n && forall i :: 0 <= i < n ==> r[i] == (0, 0)
  {
    seq(n, i => (0, 0))
  }

  /** What a queue read up to a position still holds. */
  function Unread(queue: seq<seq<int>>, readPos: nat): seq<Frame> {
    if queue == [] then [] else FramesFrom(queue[0], readPos) + AllFrames(queue[1..])
  }

  predicate Readable(queue: seq<seq<int>>, readPos: nat) {
    && (forall c <- queue :: c != [])
    && if queue == [] then readPos == 0 else readPos < |queue[0]|
  }

  class PcmPlayer {
    var queue: seq<seq<int>>
    var readPos: nat
    var queuedHalves: int   // twice the queued frames: an odd chunk ends in half a frame
    var started: bool
    ghost var odd: nat      // chunks with an odd number of samples since the last clear

    ghost predicate Valid()
      reads this
    {
      && Readable(queue, readPos)
      && queuedHalves == 2 * |Pending()| - odd
    }

    ghost function Pending(): seq<Frame>
      reads this
    {
      Unread(queue, readPos)
    }

    constructor ()
      ensures Valid() && Pending() == [] && !started && odd == 0
    {
      queue, readPos, queuedHalves, started, odd := [], 0, 0, false, 0;
    }

    /** A chunk from the network; the sender never passes fewer than two samples. */
    method Receive(samples: seq<int>)
      requires Valid() && |samples| >= 2
      modifies this
      ensures Valid() && Pending() == old(Pending()) + FramesFrom(samples, 0) && started == old(started)
      ensures odd == old(odd) + |samples| % 2
    {
      Queued(queue, readPos, samples);
      queue := queue + [samples];
      queuedHalves := queuedHalves + |samples|;
      odd := odd + |samples| % 2;
    }

    method Clear()
      modifies this
      ensures Valid() && Pending() == [] && !started && odd == 0
    {
      queue, readPos, queuedHalves, started, odd := [], 0, 0, false, 0;
    }

    /** Fills one output block. Nothing is played until the prebuffer is full; then frames are
        played in order, and when they run out the rest of the block is silent and prebuffering
        starts over. Each odd chunk ever received raises the mark by half a frame. */
    method Process(n: nat) returns (out: seq<Frame>)
      requires Valid()
      modifies this
      ensures Valid() && odd == old(odd)
      ensures var was := old(Pending());
              if old(started) || 2 * |was| >= 2 * PREBUFFER_FRAMES + odd
              then out == Played(was, n) && Pending() == Left(was, n) && started == (n <= |was|)
              else out == Silence(n) && Pending() == was && !started
    {
      if !started {
        if queuedHalves >= 2 * PREBUFFER_FRAMES {
          started := true;
        } else {
          return Silence(n);
        }
      }
      out := PlayBlock(n);
    }

    method PlayBlock(n: nat) returns (out: seq<Frame>)
      requires Valid() && started
      modifies this
      ensures Valid() && odd == old(odd)
      ensures out == Played(old(Pending()), n) && Pending() == Left(old(Pending()), n)
      ensures started == (n <= |old(Pending())|)
    {
      hide Unread, Readable;
      ghost var was := Pending();
      out := [];
      for i := 0 to n
        invariant Valid() && odd == old(odd)
        invariant out == Played(was, i) && Pending() == Left(was, i)
        invariant started == (i <= |was|)
      {
        PlayedNext(was, i);
        NextFrame(queue, readPos);
        if queue == [] {
          out := out + [(0, 0)];
          started := false;
          continue;
        }
        var f := TakeFrame();
        out := out + [f];
      }
    }

    method TakeFrame() returns (f: Frame)
      requires Valid() && queue != []
      modifies this`queue, this`readPos, this`queuedHalves
      ensures Valid() && old(Pending()) != []
      ensures f == old(Pending())[0] && Pending() == old(Pending())[1..]
    {
      hide Unread, Readable;
      NextFrame(queue, readPos);
      var cur := queue[0];
      f := (cur[readPos], if readPos + 1 < |cur| then cur[readPos + 1] else 0);
      readPos := readPos + 2;
      queuedHalves := queuedHalves - 2;
      if readPos >= |cur| {
        queue, readPos := queue[1..], 0;
      }
    }
  }

  /** The first i frames of a block, and what is left afterwards. */
  function Played(was: seq<Frame>, i: nat): (r: seq<Frame>)
    ensures |r| == i
  {
    if i <= |was| then was[..i] else was + Silence(i - |was|)
  }

  function Left(was: seq<Frame>, i: nat): seq<Frame> {
    if i <= |was| then was[i..] else []
  }

  lemma PlayedNext(was: seq<Frame>, i: nat)
    ensures Played(was, i) + [if i < |was| then was[i] else (0, 0)] == Played(was, i + 1)
    ensures Left(was, i + 1) == if i < |was| then Left(was, i)[1..] else []
    ensures i < |was| ==> Left(was, i) != [] && Left(was, i)[0] == was[i]
    ensures i >= |was| ==> Left(was, i) == []
  {
  }

  lemma Queued(queue: seq<seq<int>>, readPos: nat, samples: seq<int>)
    requires Readable(queue, readPos) && |samples| >= 2
    ensures Readable(queue + [samples], readPos)
    ensures Unread(queue + [samples], readPos) == Unread(queue, readPos) + FramesFrom(samples, 0)
  {
    if queue == [] {
      assert FramesFrom(samples, 0) + [] == [] + FramesFrom(samples, 0);
    } else {
      UnreadSnoc(queue, readPos, samples);
    }
  }

  lemma UnreadSnoc(queue: seq<seq<int>>, readPos: nat, samples: seq<int>)
    requires queue != []
    ensures Unread(queue + [samples], readPos) == Unread(queue, readPos) + FramesFrom(samples, 0)
  {
    hide FramesFrom, AllFrames;
    assert (queue + [samples])[1..] == queue[1..] + [samples];
    AllFramesSnoc(queue[1..], samples);
    Assoc(FramesFrom(queue[0], readPos), AllFrames(queue[1..]), FramesFrom(samples, 0));
  }

  /** One frame read moves on to the rest. */
  lemma NextFrame(queue: seq<seq<int>>, readPos: nat)
    requires Readable(queue, readPos)
    ensures queue == [] ==> Unread(queue, readPos) == []
    ensures queue != [] ==> readPos < |queue[0]|
    ensures queue != [] ==>
              var cur := queue[0]; var all := Unread(queue, readPos);
              && all != []
              && all[0] == (cur[readPos], if readPos + 1 < |cur| then cur[readPos + 1] else 0)
              && var next := if readPos + 2 >= |cur| then (queue[1..], 0) else (queue, readPos + 2);
              Readable(next.0, next.1) && Unread(next.0, next.1) == all[1..]
  {
    if queue != [] {
      var cur, rest := queue[0], queue[1..];
      var tail := FramesFrom(cur, readPos + 2);
      assert (FramesFrom(cur, readPos) + AllFrames(rest))[1..] == tail + AllFrames(rest);
      forall c | c in rest ensures c in queue {}
      if readPos + 2 >= |cur| {
        assert rest != [] ==> rest[0] in queue;
        assert tail == [] && Unread(rest, 0) == AllFrames(rest);
        assert [] + AllFrames(rest) == AllFrames(rest);
      }
    }
  }

  datatype Event = Chunk(samples: seq<int>) | Block(n: nat)

  /** The frames of an output where `heard` says they came from the queue. */
  function Heard(out: seq<Frame>, heard: seq<bool>): seq<Frame>
    requires |out| == |heard|
  {
    if out == [] then []
    else
      var n := |out| - 1;
      Heard(out[..n], heard[..n]) + (if heard[n] then [out[n]] else [])
  }

  function Received(events: seq<Event>): seq<Frame> {
    if events == [] then []
    else
      var last := events[|events| - 1];
      Received(events[..|events| - 1]) + (if last.Chunk? then FramesFrom(last.samples, 0) else [])
  }

  /** The player after a run: the frames still queued, whether it is playing, and how many chunks
      were odd. */
  datatype Player = Player(pending: seq<Frame>, playing: bool, odd: nat)

  predicate Plays(p: Player) {
    p.playing || 2 * |p.pending| >= 2 * PREBUFFER_FRAMES + p.odd
  }

  function After(events: seq<Event>): Player {
    if events == [] then Player([], false, 0)
    else
      var p := After(events[..|events| - 1]);
      match events[|events| - 1]
      case Chunk(samples) => Player(p.pending + FramesFrom(samples, 0), p.playing, p.odd + |samples| % 2)
      case Block(n) => if Plays(p) then Player(Left(p.pending, n), n <= |p.pending|, p.odd) else p
  }

  /** The output of a run: a whole block each time one is asked for. */
  function OutputOf(events: seq<Event>): seq<Frame> {
    if events == [] then []
    else
      var front, e := events[..|events| - 1], events[|events| - 1];
      OutputOf(front) +
      if e.Block? then (if Plays(After(front)) then Played(After(front).pending, e.n) else Silence(e.n)) else []
  }

  /** One block: how much of it was heard. */
  lemma HeardBlock(was: seq<Frame>, n: nat) returns (heard: seq<bool>)
    ensures |heard| == n
    ensures Heard(Played(was, n), heard) + Left(was, n) == was
    ensures forall i :: 0 <= i < n && !heard[i] ==> Played(was, n)[i] == (0, 0)
  {
    hide Played, Left, Heard;
    heard := [];
    var i := 0;
    NothingPlayed(was);
    while i < n
      invariant i <= n && |heard| == i
      invariant Heard(Played(was, i), heard) + Left(was, i) == was
      invariant forall k :: 0 <= k < i && !heard[k] ==> Played(was, i)[k] == (0, 0)
    {
      HeardNext(was, i, heard);
      heard := heard + [i < |was|];
      i := i + 1;
    }
  }

  lemma NothingPlayed(was: seq<Frame>)
    ensures Heard(Played(was, 0), []) + Left(was, 0) == was
  {
  }

  lemma HeardNext(was: seq<Frame>, i: nat, heard: seq<bool>)
    requires |heard| == i && Heard(Played(was, i), heard) + Left(was, i) == was
    ensures Heard(Played(was, i + 1), heard + [i < |was|]) + Left(was, i + 1) == was
    ensures Played(was, i + 1)[..i] == Played(was, i)
    ensures i >= |was| ==> Played(was, i + 1)[i] == (0, 0)
  {
    hide Played, Left, Heard;
    PlayedNext(was, i);
    var f := if i < |was| then was[i] else (0, 0);
    HeardSnoc(Played(was, i), heard, f, i < |was|);
    if i < |was| {
      Assoc(Heard(Played(was, i), heard), [f], Left(was, i + 1));
      assert Left(was, i) == [f] + Left(was, i + 1);
    }
    assert (Played(was, i) + [f])[..i] == Played(was, i);
  }

  lemma HeardSnoc(out: seq<Frame>, heard: seq<bool>, f: Frame, h: bool)
    requires |out| == |heard|
    ensures Heard(out + [f], heard + [h]) == Heard(out, heard) + (if h then [f] else [])
  {
    assert (out + [f])[..|out|] == out && (heard + [h])[..|out|] == heard;
  }

  lemma {:induction false} HeardAppend(a: seq<Frame>, x: seq<bool>, b: seq<Frame>, y: seq<bool>)
    requires |a| == |x| && |b| == |y|
    ensures Heard(a + b, x + y) == Heard(a, x) + Heard(b, y)
  {
    if b == [] {
      assert a + b == a && x + y == x;
    } else {
      var n := |b| - 1;
      HeardAppend(a, x, b[..n], y[..n]);
      assert (a + b)[..|a| + n] == a + b[..n] && (x + y)[..|a| + n] == x + y[..n];
      Assoc(Heard(a, x), Heard(b[..n], y[..n]), if y[n] then [b[n]] else []);
    }
  }

  lemma AllSilent(n: nat) returns (heard: seq<bool>)
    ensures |heard| == n && Heard(Silence(n), heard) == []
    ensures forall i :: 0 <= i < n ==> !heard[i]
  {
    heard := HeardBlock([], n);
    assert Played([], n) == Silence(n);
    forall i | 0 <= i < n ensures !heard[i] {
      if heard[i] { HeardMany(Silence(n), heard, i); }
    }
  }

  lemma {:induction false} HeardMany(out: seq<Frame>, heard: seq<bool>, i: nat)
    requires |out| == |heard| && i < |out| && heard[i]
    ensures Heard(out, heard) != []
  {
    if i < |out| - 1 { HeardMany(out[..|out| - 1], heard[..|out| - 1], i); }
  }

  /** Any run between clears: the output is the received stream in order, nothing lost, repeated
      or swapped, with only silence in between; what was not yet heard is still queued. */
  method Run(events: seq<Event>) returns (player: PcmPlayer, out: seq<Frame>, ghost heard: seq<bool>)
    requires forall e <- events :: e.Chunk? ==> |e.samples| >= 2
    ensures out == OutputOf(events) && player.Pending() == After(events).pending
    ensures |heard| == |out| && forall i :: 0 <= i < |out| && !heard[i] ==> out[i] == (0, 0)
    ensures Heard(out, heard) + player.Pending() == Received(events)
  {
    hide Unread, Readable, Heard, FramesFrom, Played, Left;
    player := new PcmPlayer();
    out, heard := [], [];
    NothingHeard();
    for i := 0 to |events|
      invariant fresh(player) && player.Valid() && |heard| == |out|
      invariant out == OutputOf(events[..i])
      invariant Player(player.Pending(), player.started, player.odd) == After(events[..i])
      invariant forall k :: 0 <= k < |out| && !heard[k] ==> out[k] == (0, 0)
      invariant Heard(out, heard) + player.Pending() == Received(events[..i])
    {
      assert events[..i + 1][..i] == events[..i];
      ghost var was := player.Pending();
      match events[i] {
        case Chunk(samples) =>
          player.Receive(samples);
          assert out + [] == out;
          Assoc(Heard(out, heard), was, FramesFrom(samples, 0));
        case Block(n) =>
          var block := player.Process(n);
          ghost var mask := BlockMask(was, n, block, player.Pending());
          HeardAppend(out, heard, block, mask);
          Assoc(Heard(out, heard), Heard(block, mask), player.Pending());
          out, heard := out + block, heard + mask;
          assert Received(events[..i]) + [] == Received(events[..i]);
      }
    }
    assert events[..|events|] == events;
  }

  lemma NothingHeard()
    ensures Heard([], []) == []
  {
  }

  lemma BlockMask(was: seq<Frame>, n: nat, block: seq<Frame>, left: seq<Frame>) returns (mask: seq<bool>)
    requires (block == Played(was, n) && left == Left(was, n)) || (block == Silence(n) && left == was)
    ensures |mask| == |block| && Heard(block, mask) + left == was
    ensures forall i :: 0 <= i < |block| && !mask[i] ==> block[i] == (0, 0)
  {
    if block == Played(was, n) && left == Left(was, n) {
      mask := HeardBlock(was, n);
    } else {
      mask := AllSilent(n);
      assert [] + was == was;
    }
  }

  /** One odd chunk: a whole prebuffer is queued, its last frame half silent, and still nothing is
      played. */
  method OddChunkWaits(samples: seq<int>, n: nat) returns (player: PcmPlayer, out: seq<Frame>)
    requires |samples| == 5759
    ensures |player.Pending()| == 2880 && !player.started && out == Silence(n)
  {
    player := new PcmPlayer();
    player.Receive(samples);
    out := player.Process(n);
  }

  /** One sample more, and it plays. */
  method EvenChunkPlays(samples: seq<int>) returns (player: PcmPlayer, out: seq<Frame>)
    requires |samples| == 5760
    ensures player.started && |player.Pending()| == 2879 && out == [(samples[0], samples[1])]
  {
    player := new PcmPlayer();
    player.Receive(samples);
    FrameAt(samples, 0);
    out := player.Process(1);
  }

  /** Left, then right: frame i is samples 2i and 2i + 1, silent where the chunk ends early. */
  lemma FrameAt(chunk: seq<int>, i: nat)
    requires 2 * i < |chunk|
    ensures |FramesFrom(chunk, 0)| == (|chunk| + 1) / 2
    ensures FramesFrom(chunk, 0)[i] == (chunk[2 * i], if 2 * i + 1 < |chunk| then chunk[2 * i + 1] else 0)
  {
    FrameFrom(chunk, 0, i);
  }

  lemma {:induction false} FrameFrom(chunk: seq<int>, pos: nat, i: nat)
    requires pos + 2 * i < |chunk|
    ensures FramesFrom(chunk, pos)[i] ==
            (chunk[pos + 2 * i], if pos + 2 * i + 1 < |chunk| then chunk[pos + 2 * i + 1] else 0)
    decreases i
  {
    if i > 0 { FrameFrom(chunk, pos + 2, i - 1); }
  }

  /** A block holds the frames there are, then silence. */
  lemma PlayedAt(was: seq<Frame>, n: nat, i: nat)
    requires i < n
    ensures Played(was, n)[i] == if i < |was| then was[i] else (0, 0)
    ensures Left(was, n) == if n < |was| then was[n..] else []
  {
  }
}

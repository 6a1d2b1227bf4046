/** web/src/mse-decoder.ts: access units become media segments, each held back until the next
    one fixes its duration. */
module MsePipelines {
  import opened Bytes
  import opened AnnexB
  import opened Fmp4

  /** One submitted access unit. */
  datatype Unit = Unit(keyframe: bool, nal: seq<byte>, pts: int)

  /** A frame as it is held. */
  datatype Held = Held(sample: seq<byte>, pts: int, keyframe: bool)

  const FALLBACK_CODEC: string := "avc1.42E01F"

  // ----- What a history of submissions comes to ----------------------------

  function SampleOf(u: Unit): seq<byte> {
    LengthedAll(SampleUnits(AllUnits(u.nal)))
  }

  predicate Brings(h: seq<Unit>, t: int) {
    exists u <- h :: FirstOfType(AllUnits(u.nal), t).Some?
  }

  /** Playback starts with the first keyframe that finds both parameter sets known. */
  predicate Started(h: seq<Unit>) {
    h != [] && (Started(h[..|h| - 1]) || (h[|h| - 1].keyframe && Brings(h, 7) && Brings(h, 8)))
  }

  /** The parameter sets known: each taken from a unit that has one, until both are known. */
  function Params(h: seq<Unit>): (Option<seq<byte>>, Option<seq<byte>>) {
    if h == [] then (None, None)
    else
      var was, units := Params(h[..|h| - 1]), AllUnits(h[|h| - 1].nal);
      if was.0.Some? && was.1.Some? then was
      else (if FirstOfType(units, 7).Some? then FirstOfType(units, 7) else was.0,
            if FirstOfType(units, 8).Some? then FirstOfType(units, 8) else was.1)
  }

  /** Unit i is a keyframe, and by then both an SPS and a PPS have come. */
  predicate CanStart(h: seq<Unit>, i: nat) {
    i < |h| && h[i].keyframe && Brings(h[..i + 1], 7) && Brings(h[..i + 1], 8)
  }

  lemma {:induction false} StartedMeaning(h: seq<Unit>)
    ensures Started(h) <==> exists i: nat :: CanStart(h, i)
  {
    hide Brings;
    if h != [] {
      var n := |h| - 1;
      StartedMeaning(h[..n]);
      assert h[..n + 1] == h;
      forall i: nat | i < n ensures CanStart(h[..n], i) <==> CanStart(h, i) {
        assert h[..n][..i + 1] == h[..i + 1];
      }
      if Started(h) && !Started(h[..n]) { assert CanStart(h, n); }
      if i: nat :| CanStart(h, i) { if i < n { assert CanStart(h[..n], i); } }
    }
  }

  lemma {:induction false} ParamsKnown(h: seq<Unit>)
    ensures Params(h).0.Some? <==> Brings(h, 7)
    ensures Params(h).1.Some? <==> Brings(h, 8)
    ensures Params(h).0.Some? ==> NalType(Params(h).0.value) == 7
    ensures Params(h).1.Some? ==> NalType(Params(h).1.value) == 8
  {
    if h != [] {
      var front, u := h[..|h| - 1], h[|h| - 1];
      assert h == front + [u];
      ParamsKnown(front);
      Snoc(front, u);
      TypeOfFirst(AllUnits(u.nal), 7);
      TypeOfFirst(AllUnits(u.nal), 8);
    }
  }

  lemma {:induction false} TypeOfFirst(units: seq<seq<byte>>, t: int)
    ensures FirstOfType(units, t).Some? ==> NalType(FirstOfType(units, t).value) == t
    ensures FirstOfType(units, t).Some? <==> exists n <- units :: NalType(n) == t
  {
    if units != [] { TypeOfFirst(units[1..], t); }
  }

  /** The codec string of the unit that starts playback. */
  function CodecOf(h: seq<Unit>): string {
    if !Started(h) then ""
    else if Started(h[..|h| - 1]) then CodecOf(h[..|h| - 1])
    else match CodecString(CodecScan(h[|h| - 1].nal, 0)) case Some(name) => name case None => "avc1.42E01F"
  }

  /** The presentation time everything is counted from. */
  function Origin(h: seq<Unit>): Option<int> {
    if !Started(h) then None
    else
      var front := h[..|h| - 1];
      if Started(front) then Origin(front) else Some(h[|h| - 1].pts)
  }

  /** The frames that count: those from the start on that have something to decode. */
  function Frames(h: seq<Unit>): seq<Held> {
    if h == [] then []
    else
      var u := h[|h| - 1];
      Frames(h[..|h| - 1]) +
      if Started(h) && SampleOf(u) != [] then [Held(SampleOf(u), u.pts, u.keyframe)] else []
  }

  function Max1(x: int): int {
    if x > 1 then x else 1
  }

  /** The i-th segment: it lasts until the next frame. */
  function SegmentOf(frames: seq<Held>, origin: int, i: nat): Segment
    requires i + 1 < |frames|
  {
    var f := frames[i];
    Segment(f.sample, f.pts - origin, Max1(frames[i + 1].pts - f.pts), f.keyframe, i + 1)
  }

  function Segments(frames: seq<Held>, origin: int): (r: seq<seq<byte>>)
    ensures |r| == if frames == [] then 0 else |frames| - 1
    ensures forall i :: 0 <= i < |r| ==> r[i] == Print(SegmentOf(frames, origin, i))
  {
    seq(if frames == [] then 0 else |frames| - 1, i requires 0 <= i < |frames| - 1 => Print(SegmentOf(frames, origin, i)))
  }

  lemma Snoc(h: seq<Unit>, u: Unit)
    ensures (h + [u])[..|h|] == h
    ensures forall t :: Brings(h + [u], t) <==> Brings(h, t) || FirstOfType(AllUnits(u.nal), t).Some?
  {
    assert (h + [u])[..|h|] == h;
    assert u in h + [u];
    forall t ensures Brings(h + [u], t) <==> Brings(h, t) || FirstOfType(AllUnits(u.nal), t).Some? {
      if Brings(h, t) {
        var v :| v in h && FirstOfType(AllUnits(v.nal), t).Some?;
        assert v in h + [u];
      }
    }
  }

  /** One submission more. */
  lemma OneMore(h: seq<Unit>, u: Unit)
    ensures var now := h + [u];
            && (forall t :: Brings(now, t) <==> Brings(h, t) || FirstOfType(AllUnits(u.nal), t).Some?)
            && Started(now) == (Started(h) || (u.keyframe && Brings(now, 7) && Brings(now, 8)))
            && Origin(now) == (if Started(h) then Origin(h) else if Started(now) then Some(u.pts) else None)
            && Params(now) == (var units := AllUnits(u.nal);
                               if Params(h).0.Some? && Params(h).1.Some? then Params(h)
                               else (if FirstOfType(units, 7).Some? then FirstOfType(units, 7) else Params(h).0,
                                     if FirstOfType(units, 8).Some? then FirstOfType(units, 8) else Params(h).1))
            && CodecOf(now) == (if Started(h) then CodecOf(h)
                                else if Started(now)
                                then match CodecString(CodecScan(u.nal, 0)) case Some(name) => name case None => "avc1.42E01F"
                                else "")
            && Frames(now) == (if Started(now) && SampleOf(u) != []
                               then Frames(h) + [Held(SampleOf(u), u.pts, u.keyframe)] else Frames(h))
  {
    hide SampleOf, AllUnits, FirstOfType, CodecString, CodecScan, Brings;
    Snoc(h, u);
    assert Frames(h) + [] == Frames(h);
  }

  /** The fields of the pipeline that hold frames back. */
  ghost predicate Holding(frames: seq<Held>, origin: Option<int>, prev: Option<Held>, nextSequence: nat,
                          segments: seq<seq<byte>>)
  {
    && prev == (if frames == [] then None else Some(frames[|frames| - 1]))
    && (frames != [] ==> origin.Some?)
    && nextSequence == (if frames == [] then 1 else |frames|)
    && segments == (if origin.None? then [] else Segments(frames, origin.value))
  }

  lemma OriginSet(frames: seq<Held>, origin: int, prev: Option<Held>, nextSequence: nat, segments: seq<seq<byte>>)
    requires Holding(frames, None, prev, nextSequence, segments)
    ensures Holding(frames, Some(origin), prev, nextSequence, segments)
  {
  }

  lemma OriginKnown(h: seq<Unit>)
    ensures Origin(h).Some? <==> Started(h)
    ensures !Started(h) ==> Frames(h) == []
  {
    if h != [] { OriginKnown(h[..|h| - 1]); }
  }

  lemma SegmentsSnoc(frames: seq<Held>, origin: int, f: Held)
    ensures Segments(frames + [f], origin) ==
            if frames == [] then []
            else Segments(frames, origin) + [Print(SegmentOf(frames + [f], origin, |frames| - 1))]
  {
    hide Print;
    var now := frames + [f];
    forall i | 0 <= i < |frames| - 1 ensures SegmentOf(now, origin, i) == SegmentOf(frames, origin, i) {}
  }

  // ----- The pipeline ------------------------------------------------------

  class MseVideoPipeline {
    var sps: Option<seq<byte>>
    var pps: Option<seq<byte>>
    var started: bool
    var codec: string
    var nextSequence: nat
    var firstPts: Option<int>
    var prev: Option<Held>
    var segments: seq<seq<byte>>      // everything queued for the source buffer
    ghost var history: seq<Unit>      // submissions since the last close

    ghost predicate Valid()
      reads this
    {
      && (sps, pps) == Params(history)
      && (started ==> codec == CodecOf(history))
      && started == Started(history)
      && firstPts == Origin(history)
      && Holding(Frames(history), firstPts, prev, nextSequence, segments)
    }

    constructor ()
      ensures Valid() && history == []
    {
      sps, pps, started, codec, nextSequence := None, None, false, "", 1;
      firstPts, prev, segments, history := None, None, [], [];
    }

    method Submit(u: Unit)
      requires Valid()
      modifies this
      ensures Valid() && history == old(history) + [u]
      ensures old(segments) <= segments
    {
      hide Print, AllUnits, LengthedAll, SampleUnits, FirstOfType, CodecScan, CodecString, Brings, Started,
           Origin, Frames, Holding, Params, CodecOf;
      OneMore(history, u);
      ParamsKnown(history + [u]);
      OriginKnown(history);
      ghost var was := Frames(history);
      history := history + [u];
      var units := ParseAnnexB(u.nal);
      LearnParams(units);
      Begin(u);
      if !started { return; }
      if old(firstPts).None? { OriginSet(was, u.pts, prev, nextSequence, segments); }
      var sample := AnnexBToAvcc(units);
      if sample == [] { return; }
      Hold(Held(sample, u.pts, u.keyframe), was);
    }

    /** Waits for a keyframe with both parameter sets known; counts time from there. */
    method Begin(u: Unit)
      requires started <==> firstPts.Some?
      modifies this`started, this`codec, this`firstPts
      ensures started == (old(started) || (u.keyframe && sps.Some? && pps.Some?))
      ensures firstPts == if started && !old(started) then Some(u.pts) else old(firstPts)
      ensures started && !old(started) ==>
                codec == (match CodecString(CodecScan(u.nal, 0)) case Some(name) => name case None => "avc1.42E01F")
      ensures !(started && !old(started)) ==> codec == old(codec)
    {
      hide CodecString, CodecScan;
      if !started {
        if !u.keyframe || sps.None? || pps.None? { return; }
        var named := AvcCodecString(u.nal);
        codec := if named.Some? then named.value else FALLBACK_CODEC;
        started := true;
      }
      if firstPts.None? { firstPts := Some(u.pts); }
    }

    method LearnParams(units: seq<seq<byte>>)
      modifies this`sps, this`pps
      ensures (sps, pps) == if old(sps).Some? && old(pps).Some? then (old(sps), old(pps))
                            else (if FirstOfType(units, 7).Some? then FirstOfType(units, 7) else old(sps),
                                  if FirstOfType(units, 8).Some? then FirstOfType(units, 8) else old(pps))
    {
      if sps.None? || pps.None? {
        if FirstOfType(units, 7).Some? { sps := FirstOfType(units, 7); }
        if FirstOfType(units, 8).Some? { pps := FirstOfType(units, 8); }
      }
    }

    /** Emits the frame held until now, lasting until the new one, and holds that. */
    method Hold(cur: Held, ghost was: seq<Held>)
      requires firstPts.Some? && Holding(was, firstPts, prev, nextSequence, segments)
      modifies this`prev, this`nextSequence, this`segments
      ensures Holding(was + [cur], firstPts, prev, nextSequence, segments)
      ensures old(segments) <= segments
    {
      hide Print;
      SegmentsSnoc(was, firstPts.value, cur);
      if prev.Some? {
        var gap := cur.pts - prev.value.pts;
        Emit(prev.value, if gap > 1 then gap else 1);
      }
      prev := Some(cur);
    }

    method Emit(f: Held, duration: int)
      requires firstPts.Some?
      modifies this`nextSequence, this`segments
      ensures nextSequence == old(nextSequence) + 1
      ensures segments == old(segments) +
                [Print(Segment(f.sample, f.pts - firstPts.value, duration, f.keyframe, old(nextSequence)))]
    {
      hide Print;
      var out := BuildSegment(Segment(f.sample, f.pts - firstPts.value, duration, f.keyframe, nextSequence));
      nextSequence := nextSequence + 1;
      segments := segments + [out];
    }

    method Close()
      modifies this
      ensures Valid() && history == []
    {
      segments, prev, started, sps, pps, firstPts, nextSequence := [], None, false, None, None, None, 1;
      history := [];
    }
  }

  // ----- The timeline ------------------------------------------------------

  /** What a player reads out of a segment. */
  function Learned(frames: seq<Held>, origin: int, i: nat): Option<Info>
    requires i + 1 < |frames|
  {
    ReadSegment(Print(SegmentOf(frames, origin, i)))
  }

  /** Segments whose numbers fit the fields they are written into. */
  predicate FitsFields(s: Segment) {
    && 8 + |s.sample| < 0x1_0000_0000 && 0 <= s.time < 0x1_0000_0000_0000_0000
    && s.duration < 0x1_0000_0000 && s.sequence < 0x1_0000_0000
  }

  /** A segment comes back with its own numbers exactly when they fit. */
  lemma FieldsFit(s: Segment)
    ensures (var r := ReadSegment(Print(s));
             r.Some? && r.value.sample == s.sample && r.value.flags == SampleFlags(s.keyframe) && r.value.time as int == s.time
             && r.value.duration as int == s.duration && r.value.sequence as int == s.sequence) <==>
            FitsFields(s) && s.duration >= 0 && s.sequence >= 0
  {
    hide Print, ReadSegment, SampleFlags;
    SegmentRoundTrip(s);
  }

  /** The timeline a player reads: every segment whose sample fits a box carries its own frame,
      numbered from 1, all numbers modulo their width. */
  lemma SegmentRead(frames: seq<Held>, origin: int, i: nat)
    requires i + 1 < |frames|
    ensures var s := SegmentOf(frames, origin, i);
            Learned(frames, origin, i) == Some(Info(Low32(i + 1), (frames[i].pts - origin) % 0x1_0000_0000_0000_0000,
                                                    Low32(s.duration), SampleFlags(frames[i].keyframe),
                                                    frames[i].sample)) <==>
            8 + |frames[i].sample| < 0x1_0000_0000
  {
    hide Print, ReadSegment, SampleFlags;
    SegmentRoundTrip(SegmentOf(frames, origin, i));
  }

  /** Where the numbers fit their fields, each segment ends where the next begins exactly when the
      next frame is later; an earlier one, or one with the same time, makes them overlap. */
  lemma Timeline(frames: seq<Held>, origin: int, i: nat)
    requires i + 2 < |frames|
    requires FitsFields(SegmentOf(frames, origin, i)) && FitsFields(SegmentOf(frames, origin, i + 1))
    ensures var a := Learned(frames, origin, i); var b := Learned(frames, origin, i + 1);
            && a.Some? && b.Some? && a.value.duration > 0
            && a.value.time + a.value.duration >= b.value.time
            && (a.value.time + a.value.duration == b.value.time <==> frames[i].pts < frames[i + 1].pts)
  {
    hide Print, ReadSegment, SampleFlags;
    SegmentRead(frames, origin, i);
    SegmentRead(frames, origin, i + 1);
  }

  function TotalDuration(frames: seq<Held>): nat {
    if |frames| < 2 then 0
    else
      var n := |frames|;
      TotalDuration(frames[..n - 1]) + Max1(frames[n - 1].pts - frames[n - 2].pts)
  }

  predicate EverLater(frames: seq<Held>) {
    forall i :: 0 < i < |frames| ==> frames[i - 1].pts < frames[i].pts
  }

  /** The segments together last as long as the frames took to present, exactly when every frame
      is later than the one before it; otherwise playback falls behind. */
  lemma {:induction false} Gapless(frames: seq<Held>)
    requires frames != []
    ensures TotalDuration(frames) >= frames[|frames| - 1].pts - frames[0].pts
    ensures TotalDuration(frames) == frames[|frames| - 1].pts - frames[0].pts <==> EverLater(frames)
  {
    var n := |frames|;
    if n > 1 {
      var front := frames[..n - 1];
      Gapless(front);
      assert EverLater(frames) <==> EverLater(front) && frames[n - 2].pts < frames[n - 1].pts by {
        if EverLater(frames) {
          forall i | 0 < i < n - 1 ensures front[i - 1].pts < front[i].pts {
            assert frames[i - 1].pts < frames[i].pts;
          }
        }
      }
    }
  }

  /** Two frames with one time: the first segment lasts 1, and the second begins where it did. */
  lemma SameTimeOverlaps()
    ensures var f := Held(SLICE, 0, true); TotalDuration([f, f]) == 1
  {
    var f := Held(SLICE, 0, true);
    assert TotalDuration([f, f][..1]) == 0;
  }

  // ----- The first frame ---------------------------------------------------

  /** Frames only ever follow those there are, and once started playback stays started. */
  lemma {:induction false} FramesGrow(h: seq<Unit>, more: seq<Unit>)
    ensures Frames(h) <= Frames(h + more) && (Started(h) ==> Started(h + more))
  {
    if more == [] {
      assert h + more == h;
    } else {
      hide Frames, Started, Brings, SampleOf;
      var n := |more| - 1;
      FramesGrow(h, more[..n]);
      assert h + more == (h + more[..n]) + [more[n]];
      OneMore(h + more[..n], more[n]);
    }
  }

  lemma OriginStays(h: seq<Unit>, u: Unit)
    ensures Started(h) ==> Started(h + [u]) && Origin(h + [u]) == Origin(h)
    ensures !Started(h) && Started(h + [u]) ==> Origin(h + [u]) == Some(u.pts)
  {
    hide Frames, Started, Brings, SampleOf, Origin;
    OneMore(h, u);
  }

  /** Time is counted from the unit that starts playback, for good. */
  lemma {:induction false} OriginIsStart(h: seq<Unit>, u: Unit, more: seq<Unit>)
    requires !Started(h) && Started(h + [u])
    ensures Started(h + [u] + more) && Origin(h + [u] + more) == Some(u.pts)
  {
    hide Started, Origin;
    if more == [] {
      OriginStays(h, u);
      assert h + [u] + more == h + [u];
    } else {
      var n := |more| - 1;
      var before := h + [u] + more[..n];
      OriginIsStart(h, u, more[..n]);
      OriginStays(before, more[n]);
      assert h + [u] + more == before + [more[n]];
    }
  }

  /** Whether every later first frame is a keyframe is decided by the unit that starts playback:
      it is if that unit has anything in it but parameter sets and delimiters, and only then. */
  lemma FirstIsKeyframe(h: seq<Unit>, u: Unit)
    requires !Started(h) && Started(h + [u])
    ensures (forall more: seq<Unit> :: StartsWithKeyframe(h + [u] + more)) <==> SampleOf(u) != []
  {
    hide Frames, Started, Brings, SampleOf;
    OneMore(h, u);
    OriginKnown(h);
    if SampleOf(u) != [] {
      forall more: seq<Unit> ensures StartsWithKeyframe(h + [u] + more) {
        FramesGrow(h + [u], more);
        KeyframeFirst(Frames(h + [u]), Frames(h + [u] + more), u);
      }
    } else {
      SliceHasSample();
      OneMore(h + [u], DELTA);
      assert Frames(h + [u] + [DELTA]) == [Held(SampleOf(DELTA), DELTA.pts, false)];
      assert !StartsWithKeyframe(h + [u] + [DELTA]);
    }
  }

  predicate StartsWithKeyframe(h: seq<Unit>) {
    Frames(h) != [] ==> Frames(h)[0].keyframe
  }

  lemma KeyframeFirst(some: seq<Held>, all: seq<Held>, u: Unit)
    requires some <= all && some == [Held(SampleOf(u), u.pts, u.keyframe)]
    ensures all != [] && all[0].keyframe == u.keyframe
  {
  }

  /** A delta: one slice of type 1. */
  const SLICE: seq<byte> := [0x41, 0x9A]
  const DELTA: Unit := Unit(false, Join([Coded(false, SLICE)]), 40000)

  lemma SliceHasSample()
    ensures SampleOf(DELTA) != []
  {
    hide AllUnits;
    AnnexBRoundTrip([Coded(false, SLICE)]);
    assert Nals([Coded(false, SLICE)]) == [SLICE];
  }

  /** A keyframe of parameter sets only. */
  const SPS: seq<byte> := [0x67, 0x42, 0xE0, 0x1F]
  const PPS: seq<byte> := [0x68, 0xCE]
  const PARAMS: Unit := Unit(true, Join([Coded(true, SPS), Coded(true, PPS)]), 20000)

  /** After it, the first frame played is the delta. */
  lemma DeltaFirst()
    ensures Frames([PARAMS, DELTA]) == [Held(SampleOf(DELTA), 40000, false)]
  {
    hide Frames, Started, Brings, SampleOf;
    ParamsHaveNoSample();
    SliceHasSample();
    NothingYet();
    assert [] + [PARAMS] == [PARAMS] && [PARAMS] + [DELTA] == [PARAMS, DELTA];
    OneMore([], PARAMS);
    OneMore([PARAMS], DELTA);
  }

  lemma NothingYet()
    ensures !Started([]) && Frames([]) == [] && forall t :: !Brings([], t)
  {
  }

  lemma ParamsHaveNoSample()
    ensures SampleOf(PARAMS) == []
    ensures FirstOfType(AllUnits(PARAMS.nal), 7).Some? && FirstOfType(AllUnits(PARAMS.nal), 8).Some?
  {
    hide AllUnits;
    TwoUnits(Coded(true, SPS), Coded(true, PPS));
    assert [SPS, PPS][1..] == [PPS] && [PPS][1..] == [];
    assert SampleUnits([PPS]) == [] + SampleUnits([]) == [];
    assert SampleUnits([SPS, PPS]) == [] + SampleUnits([PPS]) == [];
    assert LengthedAll([]) == [];
    assert FirstOfType([PPS], 8) == Some(PPS);
  }

  lemma TwoUnits(a: Coded, b: Coded)
    requires Sane(a.nal) && Sane(b.nal)
    ensures AllUnits(Join([a, b])) == [a.nal, b.nal]
  {
    hide AllUnits, Join, Sane;
    assert [a, b][1..] == [b] && [b][1..] == [];
    assert AllSane([b]) && AllSane([a, b]);
    assert Nals([]) == [] && Nals([b]) == [b.nal] + [] && Nals([a, b]) == [a.nal] + [b.nal];
    AnnexBRoundTrip([a, b]);
  }
}

/** host/src/tap_gesture.cpp: the two-finger tap as a machine, and as a statement about the
    history of updates. */
module TapGesture {
  import opened Bytes
  import opened TouchSlots

  const MOVE_THRESH: int := 2500
  const TAP_MS: int := 400

  /** One touch update: the full contact set and the time in milliseconds. */
  datatype Sample = Sample(contacts: seq<Contact>, ms: int)
  datatype Tap = NoTap | RightClick(x: u16, y: u16)

  // ----- The history specification -----------------------------------------

  /** The maximal run of non-empty updates at the end of a history. */
  function Run(h: seq<Sample>): seq<Sample> {
    if h == [] || h[|h| - 1].contacts == [] then []
    else Run(h[..|h| - 1]) + [h[|h| - 1]]
  }

  /** Every contact report of a run, in order. */
  function Reports(run: seq<Sample>): seq<Contact> {
    if run == [] then []
    else Reports(run[..|run| - 1]) + run[|run| - 1].contacts
  }

  function Distance(a: int, b: int): nat {
    if a < b then b - a else a - b
  }

  /** The place of the first report of an id (past the end if there is none). */
  function FirstIndex(reports: seq<Contact>, id: byte): (i: nat)
    ensures i <= |reports|
    ensures i < |reports| ==> reports[i].id == id
    ensures forall k :: 0 <= k < i ==> reports[k].id != id
  {
    if reports == [] || reports[0].id == id then 0 else 1 + FirstIndex(reports[1..], id)
  }

  predicate Near(c: Contact, x: u16, y: u16) {
    Distance(c.x, x) <= MOVE_THRESH && Distance(c.y, y) <= MOVE_THRESH
  }

  /** Every report of an id is near that id's first report, on both axes. */
  predicate StayedPut(reports: seq<Contact>) {
    forall j :: 0 <= j < |reports| ==>
      var first := reports[FirstIndex(reports, reports[j].id)];
      Near(reports[j], first.x, first.y)
  }

  /** The largest number of contacts ever down together. */
  function Peak(run: seq<Sample>): (n: nat)
    ensures forall i :: 0 <= i < |run| ==> |run[i].contacts| <= n
    ensures n != 0 ==> exists i :: 0 <= i < |run| && |run[i].contacts| == n
  {
    if run == [] then 0
    else
      var before, now := Peak(run[..|run| - 1]), |run[|run| - 1].contacts|;
      if now > before then now else before
  }

  /** The last update of a run with exactly two contacts. */
  function LastPair(run: seq<Sample>): (r: Option<seq<Contact>>)
    ensures r.Some? ==> |r.value| == 2
  {
    if run == [] then None
    else
      var last := run[|run| - 1].contacts;
      if |last| == 2 then Some(last) else LastPair(run[..|run| - 1])
  }

  /** Update i is p, and no later one has two contacts. */
  predicate PairAt(run: seq<Sample>, p: seq<Contact>, i: nat) {
    i < |run| && run[i].contacts == p && forall j | i < j < |run| :: |run[j].contacts| != 2
  }

  lemma {:induction false} LastPairMeaning(run: seq<Sample>, p: seq<Contact>)
    requires |p| == 2
    ensures LastPair(run) == Some(p) <==> exists i: nat :: PairAt(run, p, i)
  {
    if run != [] {
      var n := |run| - 1;
      LastPairMeaning(run[..n], p);
      if |run[n].contacts| != 2 {
        forall i: nat | i < n ensures PairAt(run[..n], p, i) <==> PairAt(run, p, i) {}
        if i: nat :| PairAt(run, p, i) { assert PairAt(run[..n], p, i); }
      } else if run[n].contacts == p {
        assert PairAt(run, p, n);
      }
    }
  }

  function Middle(a: u16, b: u16): u16 {
    (a as int + b as int) / 2
  }

  /** What an all-up update at time `ms` after this history is: a right click exactly when the
      run it ends peaked at two contacts, nothing strayed, and it took at most 400 ms; the
      point is the midpoint of the last update with two contacts. */
  function Verdict(h: seq<Sample>, ms: int): Tap {
    var run := Run(h);
    if Peak(run) == 2 && StayedPut(Reports(run)) && ms - run[0].ms <= TAP_MS then
      PeakHasPair(run);
      var pair := LastPair(run).value;
      RightClick(Middle(pair[0].x, pair[1].x), Middle(pair[0].y, pair[1].y))
    else NoTap
  }

  /** Near in figures. */
  lemma NearMeaning(c: Contact, x: u16, y: u16)
    ensures Near(c, x, y) <==> -2500 <= c.x as int - x as int <= 2500 && -2500 <= c.y as int - y as int <= 2500
  {
  }

  /** A click comes at most 400 ms after a run began that peaked at two contacts and stayed put, and
      only then; it is halfway, rounded down, between the two contacts of the last pair. */
  lemma VerdictMeaning(h: seq<Sample>, ms: int)
    ensures var run := Run(h);
            Verdict(h, ms).RightClick? <==>
            run != [] && Peak(run) == 2 && StayedPut(Reports(run)) && ms <= run[0].ms + 400
    ensures var v := Verdict(h, ms); var pair := LastPair(Run(h));
            v.RightClick? ==>
              && pair.Some?
              && 2 * v.x <= pair.value[0].x + pair.value[1].x as int <= 2 * v.x + 1
              && 2 * v.y <= pair.value[0].y + pair.value[1].y as int <= 2 * v.y + 1
  {
    hide StayedPut;
    if Peak(Run(h)) == 2 { PeakHasPair(Run(h)); }
  }

  lemma {:induction false} PairSeen(run: seq<Sample>, i: nat)
    requires i < |run| && |run[i].contacts| == 2
    ensures LastPair(run).Some?
  {
    if i < |run| - 1 {
      PairSeen(run[..|run| - 1], i);
    }
  }

  lemma PeakHasPair(run: seq<Sample>)
    requires Peak(run) == 2
    ensures run != [] && LastPair(run).Some?
  {
    var i :| 0 <= i < |run| && |run[i].contacts| == 2;
    PairSeen(run, i);
  }

  // ----- The machine -------------------------------------------------------

  class TwoFingerTap {
    var inGesture: bool
    var startMs: int
    var maxCount: nat
    var moved: bool
    var initPos: map<byte, (u16, u16)>
    var haveTwoCentroid: bool
    var centroidX: u16
    var centroidY: u16
    ghost var history: seq<Sample>

    ghost predicate Valid()
      reads this
    {
      var run := Run(history);
      && (inGesture <==> run != [])
      && (inGesture ==>
          && startMs == run[0].ms
          && maxCount == Peak(run)
          && FirstPositions(Reports(run), initPos)
          && (moved <==> !StayedPut(Reports(run)))
          && (haveTwoCentroid <==> LastPair(run).Some?)
          && (haveTwoCentroid ==>
                var pair := LastPair(run).value;
                centroidX == Middle(pair[0].x, pair[1].x) && centroidY == Middle(pair[0].y, pair[1].y)))
    }

    constructor ()
      ensures Valid() && history == []
    {
      inGesture, startMs, maxCount, moved := false, 0, 0, false;
      initPos, haveTwoCentroid, centroidX, centroidY := map[], false, 0, 0;
      history := [];
    }

    method Update(contacts: seq<Contact>, nowMs: int) returns (r: Tap)
      requires Valid()
      modifies this
      ensures Valid() && history == old(history) + [Sample(contacts, nowMs)]
      ensures contacts != [] ==> r == NoTap
      ensures r == if contacts == [] then Verdict(old(history), nowMs) else NoTap
    {
      if contacts != [] {
        FingersDown(contacts, nowMs);
        return NoTap;
      }
      r := AllUp(nowMs);
    }

    method FingersDown(contacts: seq<Contact>, nowMs: int)
      requires Valid() && contacts != []
      modifies this
      ensures Valid() && history == old(history) + [Sample(contacts, nowMs)]
    {
      hide StayedPut, FirstPositions, FirstIndex, Run, Reports, Peak, LastPair;
      ghost var run := Run(history);
      RunSnoc(history, Sample(contacts, nowMs));
      history := history + [Sample(contacts, nowMs)];
      if !inGesture {
        inGesture, startMs, maxCount, moved := true, nowMs, 0, false;
        initPos, haveTwoCentroid := map[], false;
        NoReports();
      }
      if |contacts| > maxCount { maxCount := |contacts|; }
      TrackMovement(contacts, Reports(run));
      if |contacts| == 2 {
        centroidX := (contacts[0].x as int + contacts[1].x as int) / 2;
        centroidY := (contacts[0].y as int + contacts[1].y as int) / 2;
        haveTwoCentroid := true;
      }
    }

    method AllUp(nowMs: int) returns (r: Tap)
      requires Valid()
      modifies this
      ensures Valid() && history == old(history) + [Sample([], nowMs)]
      ensures r == Verdict(old(history), nowMs)
    {
      hide StayedPut, FirstPositions, FirstIndex, Run, Reports, Peak, LastPair;
      ghost var run := Run(history);
      RunSnoc(history, Sample([], nowMs));
      NoReports();
      history := history + [Sample([], nowMs)];
      r := NoTap;
      if inGesture {
        if maxCount == 2 && !moved && haveTwoCentroid && nowMs - startMs <= TAP_MS {
          r := RightClick(centroidX, centroidY);
        }
        if maxCount == 2 { PeakHasPair(run); }
        inGesture := false;
      }
    }

    /** The contact loop: remembers first positions and notices straying. */
    method TrackMovement(contacts: seq<Contact>, ghost seen: seq<Contact>)
      requires FirstPositions(seen, initPos) && (moved <==> !StayedPut(seen))
      modifies this`initPos, this`moved
      ensures FirstPositions(seen + contacts, initPos)
      ensures moved <==> !StayedPut(seen + contacts)
    {
      hide StayedPut, FirstPositions;
      assert seen + contacts[..0] == seen;
      for i := 0 to |contacts|
        invariant FirstPositions(seen + contacts[..i], initPos)
        invariant moved <==> !StayedPut(seen + contacts[..i])
      {
        var c := contacts[i];
        ghost var sofar := seen + contacts[..i];
        assert seen + contacts[..i + 1] == sofar + [c];
        OneMoreReport(sofar, c, initPos);
        if c.id !in initPos {
          initPos := initPos[c.id := (c.x, c.y)];
        } else if !Near(c, initPos[c.id].0, initPos[c.id].1) {
          moved := true;
        }
      }
      assert contacts[..|contacts|] == contacts;
    }
  }

  /** The map of first positions: an entry for every id reported, taken from its first report. */
  ghost predicate FirstPositions(reports: seq<Contact>, pos: map<byte, (u16, u16)>) {
    forall id: byte ::
      var i := FirstIndex(reports, id);
      if i == |reports| then id !in pos
      else id in pos && pos[id] == (reports[i].x, reports[i].y)
  }

  lemma NoReports()
    ensures FirstPositions([], map[]) && StayedPut([])
    ensures Run([]) == [] && Reports([]) == [] && Peak([]) == 0 && LastPair([]) == None
  {
  }

  /** One update more: the run, its reports, its peak and its last pair. */
  lemma RunSnoc(h: seq<Sample>, s: Sample)
    ensures var run := Run(h);
            if s.contacts == [] then Run(h + [s]) == []
            else
              var now := Run(h + [s]);
              && now == run + [s]
              && Reports(now) == Reports(run) + s.contacts
              && Peak(now) == (if |s.contacts| > Peak(run) then |s.contacts| else Peak(run))
              && LastPair(now) == (if |s.contacts| == 2 then Some(s.contacts) else LastPair(run))
  {
    assert (h + [s])[..|h|] == h;
    assert (Run(h) + [s])[..|Run(h)|] == Run(h);
  }

  lemma {:induction false} FirstIndexSnoc(reports: seq<Contact>, c: Contact, id: byte)
    ensures var i := FirstIndex(reports, id);
            FirstIndex(reports + [c], id) == if i == |reports| && id != c.id then i + 1 else i
    decreases |reports|
  {
    if reports != [] && reports[0].id != id {
      FirstIndexSnoc(reports[1..], c, id);
      assert (reports + [c])[1..] == reports[1..] + [c];
    }
  }

  lemma OneMoreReport(reports: seq<Contact>, c: Contact, pos: map<byte, (u16, u16)>)
    requires FirstPositions(reports, pos)
    ensures FirstPositions(reports + [c], if c.id in pos then pos else pos[c.id := (c.x, c.y)])
    ensures StayedPut(reports + [c]) <==>
            StayedPut(reports) && (c.id in pos ==> Near(c, pos[c.id].0, pos[c.id].1))
  {
    hide FirstIndex;
    var more := reports + [c];
    forall id: byte
      ensures var i := FirstIndex(reports, id);
              FirstIndex(more, id) == if i == |reports| && id != c.id then i + 1 else i
    {
      FirstIndexSnoc(reports, c, id);
    }
    forall j | 0 <= j < |reports|
      ensures more[j] == reports[j]
      ensures more[FirstIndex(more, more[j].id)] == reports[FirstIndex(reports, reports[j].id)]
    {
    }
    assert more[|reports|] == c;
  }

  /** Run really is the maximal run of non-empty updates that ends the history. */
  lemma {:induction false} RunIsMaximal(h: seq<Sample>)
    ensures var n := |h| - |Run(h)|;
            && n >= 0 && Run(h) == h[n..]
            && (forall i :: n <= i < |h| ==> h[i].contacts != [])
            && (n == 0 || h[n - 1].contacts == [])
  {
    if h != [] && h[|h| - 1].contacts != [] {
      var init := h[..|h| - 1];
      RunIsMaximal(init);
      var n := |h| - |Run(h)|;
      assert h[n..] == init[n..] + [h[|h| - 1]];
      assert n > 0 ==> h[n - 1] == init[n - 1];
      forall i | n <= i < |h|
        ensures h[i].contacts != []
      {
        if i < |h| - 1 { assert h[i] == init[i]; }
      }
    }
  }
}

/** host/src/send_backlog.h: pacing the capture against a slow link. */
module SendBacklog {

  /** Bytes of backlog above which captures are skipped: what the bitrate carries in a quarter of a
      second, but never less than 64 KiB. */
  function BacklogLimit(kbps: int): (limit: nat)
    ensures limit >= 64 * 1024 && 4 * (limit + 1) > kbps * 125
    ensures limit > 64 * 1024 ==> 4 * limit <= kbps * 125
  {
    var quarter := (if kbps < 0 then 0 else kbps) * 1000 / 8 / 4;
    if quarter < 64 * 1024 then 64 * 1024 else quarter
  }

  predicate ShouldSkip(pending: nat, limit: nat, dropping: bool) {
    if dropping then pending > limit / 2 else pending > limit
  }

  // ----- Hysteresis over a whole run ---------------------------------------

  datatype Sample = Sample(pending: nat, limit: nat)

  /** The state after a run of samples, starting from not dropping. */
  function Dropping(samples: seq<Sample>): bool {
    if samples == [] then false
    else
      var s := samples[|samples| - 1];
      ShouldSkip(s.pending, s.limit, Dropping(samples[..|samples| - 1]))
  }

  /** Sample k went over its limit, and no sample since has fallen to half of its own. */
  predicate OverSince(samples: seq<Sample>, k: nat) {
    && k < |samples|
    && samples[k].pending > samples[k].limit
    && forall j :: k < j < |samples| ==> samples[j].pending > samples[j].limit / 2
  }

  /** Dropping now means: some sample exceeded its limit and every later one exceeded half of
      its own. Live bitrate changes may move the limit between samples. */
  lemma {:induction false} HysteresisMeaning(samples: seq<Sample>)
    ensures Dropping(samples) <==> exists k: nat :: OverSince(samples, k)
  {
    if samples != [] {
      var init, n := samples[..|samples| - 1], |samples| - 1;
      HysteresisMeaning(init);
      if Dropping(init) {
        var k: nat :| OverSince(init, k);
        if Dropping(samples) { assert OverSince(samples, k); }
      } else if Dropping(samples) {
        assert OverSince(samples, n);
      }
      if exists k: nat :: OverSince(samples, k) {
        var k: nat :| OverSince(samples, k);
        if k < n { assert OverSince(init, k); }
      }
    }
  }

  // ----- The backlog stays bounded -----------------------------------------

  /** One turn of the stream loop as the link sees it: some bytes drain; if there is a capture,
      the backlog is sampled against the limit in force, and unless it is skipped the capture's
      packets are queued. */
  datatype Turn = Turn(drained: nat, captured: bool, limit: nat, bytes: nat)

  datatype Queue = Queue(queued: nat, dropping: bool)

  function Undrained(queued: nat, drained: nat): nat {
    if drained > queued then 0 else queued - drained
  }

  function OneTurn(q: Queue, t: Turn): Queue {
    var pending := Undrained(q.queued, t.drained);
    if !t.captured then Queue(pending, q.dropping)
    else
      var dropping := ShouldSkip(pending, t.limit, q.dropping);
      Queue(if dropping then pending else pending + t.bytes, dropping)
  }

  function AfterTurns(ts: seq<Turn>): Queue {
    if ts == [] then Queue(0, false) else OneTurn(AfterTurns(ts[..|ts| - 1]), ts[|ts| - 1])
  }

  /** With any draining whatever, the backlog is never more than the limit at some capture that
      was encoded, plus what that one capture queued. */
  lemma {:induction false} BacklogBounded(ts: seq<Turn>)
    ensures AfterTurns(ts).queued == 0 || exists i: nat :: i < |ts| && Filled(ts, i, AfterTurns(ts).queued)
  {
    if ts != [] {
      var n := |ts| - 1;
      var init, t := ts[..n], ts[n];
      BacklogBounded(init);
      var before, now := AfterTurns(init), AfterTurns(ts);
      assert ts[..n + 1] == ts;
      if t.captured && !now.dropping {
        assert Filled(ts, n, now.queued);
      } else if before.queued != 0 {
        var i: nat :| i < |init| && Filled(init, i, before.queued);
        assert init[..i + 1] == ts[..i + 1];
        assert Filled(ts, i, now.queued);
      }
    }
  }

  /** Turn i captured, was not skipped, and accounts for the backlog. */
  predicate Filled(ts: seq<Turn>, i: nat, queued: nat) {
    && i < |ts| && ts[i].captured && !AfterTurns(ts[..i + 1]).dropping
    && queued <= ts[i].limit + ts[i].bytes
  }
}

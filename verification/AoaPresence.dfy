/** host/gui/aoa_presence.h: when a USB tablet that keeps vanishing from the scans counts as
    unplugged. */
module AoaPresence {

  /** One scan: the serials with a live session and those attached. */
  datatype Scan = Scan(tracked: set<string>, attached: set<string>)

  predicate Missing(s: Scan, serial: string) {
    serial in s.tracked && serial !in s.attached
  }

  /** How many scans up to now have missed a serial without a break. */
  function Streak(h: seq<Scan>, serial: string): nat {
    if h == [] || !Missing(h[|h| - 1], serial) then 0 else 1 + Streak(h[..|h| - 1], serial)
  }

  /** The streak really is the longest run of misses at the end of the history. */
  lemma {:induction false} StreakIsMaximal(h: seq<Scan>, serial: string)
    ensures var n := |h| - Streak(h, serial);
            && 0 <= n <= |h|
            && (forall i :: n <= i < |h| ==> Missing(h[i], serial))
            && (n > 0 ==> !Missing(h[n - 1], serial))
  {
    if h != [] && Missing(h[|h| - 1], serial) {
      StreakIsMaximal(h[..|h| - 1], serial);
    }
  }

  function Threshold(limit: int): nat {
    if limit < 1 then 1 else limit
  }

  class Presence {
    const limit: int
    var misses: map<string, nat>
    ghost var history: seq<Scan>

    /** Every serial's count is its streak, started anew at each report. */
    ghost predicate Valid()
      reads this
    {
      forall s: string :: Count(misses, s) == Streak(history, s) % Threshold(limit)
    }

    constructor (limit: int)
      ensures Valid() && this.limit == limit && history == []
    {
      this.limit, misses, history := limit, map[], [];
    }

    /** One scan. A serial is reported exactly at every limit-th consecutive miss. */
    method Update(tracked: set<string>, attached: set<string>) returns (gone: set<string>)
      requires Valid()
      modifies this
      ensures Valid() && history == old(history) + [Scan(tracked, attached)]
      ensures forall s: string :: s in gone <==>
                Streak(history, s) > 0 && Streak(history, s) % Threshold(limit) == 0
    {
      hide Streak, Counted;
      ghost var scan := Scan(tracked, attached);
      history := history + [scan];
      ghost var was := misses;
      gone := {};
      misses := map s | s in misses && s in tracked :: misses[s];
      var left := tracked;
      while left != {}
        invariant left <= tracked && history == old(history) + [scan]
        invariant forall s: string :: s in tracked && s !in left ==>
                    Counted(Count(was, s), s, attached, limit, Count(misses, s), s in gone)
        invariant forall s: string :: s in left ==> s !in gone && Count(misses, s) == Count(was, s)
        invariant forall s: string :: s !in tracked ==> s !in gone && Count(misses, s) == 0
        decreases left
      {
        var serial :| serial in left;
        left := left - {serial};
        var isGone := Note(serial, attached);
        if isGone { gone := gone + {serial}; }
      }
      forall s: string
        ensures Count(misses, s) == Streak(history, s) % Threshold(limit)
        ensures s in gone <==> Streak(history, s) > 0 && Streak(history, s) % Threshold(limit) == 0
      {
        NextCount(old(history), scan, s, limit, Count(misses, s), s in gone);
      }
    }

    method Note(serial: string, attached: set<string>) returns (gone: bool)
      modifies this`misses
      ensures forall s :: s != serial ==> Count(misses, s) == Count(old(misses), s)
      ensures Counted(Count(old(misses), serial), serial, attached, limit, Count(misses, serial), gone)
    {
      gone := false;
      if serial in attached {
        misses := misses - {serial};
        return;
      }
      var n := Count(misses, serial) + 1;
      if n >= limit {
        misses := misses - {serial};
        gone := true;
      } else {
        misses := misses[serial := n];
      }
    }
  }

  function Count(misses: map<string, nat>, s: string): nat {
    if s in misses then misses[s] else 0
  }

  /** What one scan makes of one serial's count. */
  predicate Counted(was: nat, s: string, attached: set<string>, limit: int, now: nat, gone: bool) {
    if s in attached then now == 0 && !gone
    else if was + 1 >= limit then now == 0 && gone
    else now == was + 1 && !gone
  }

  lemma NextCount(h: seq<Scan>, scan: Scan, s: string, limit: int, now: nat, gone: bool)
    requires if s in scan.tracked
             then Counted(Streak(h, s) % Threshold(limit), s, scan.attached, limit, now, gone)
             else now == 0 && !gone
    ensures var n := Streak(h + [scan], s);
            now == n % Threshold(limit) && (gone <==> n > 0 && n % Threshold(limit) == 0)
  {
    assert (h + [scan])[..|h|] == h;
    var n, k := Streak(h, s), Threshold(limit);
    hide Streak, Threshold;
    ModNext(n, k);
  }

  lemma {:induction false} ModNext(n: nat, k: nat)
    requires k > 0
    ensures n % k < k
    ensures (n + 1) % k == if n % k + 1 >= k then 0 else n % k + 1
    decreases n
  {
    if n >= k {
      ModNext(n - k, k);
      ModLess(n, k);
      ModLess(n + 1, k);
    }
  }

  lemma ModLess(n: nat, k: nat)
    requires n >= k > 0
    ensures n % k == (n - k) % k
  {
    var q, r := (n - k) / k, (n - k) % k;
    assert n == (q + 1) * k + r;
    Remainder(n, q + 1, r, k);
  }

  lemma Remainder(n: nat, q: nat, r: nat, k: nat)
    requires n == q * k + r && r < k
    ensures n % k == r
  {
    var m, t := n / k, n % k;
    assert n == m * k + t;
    SameQuotient(m, t, q, r, k);
  }

  lemma {:induction false} SameQuotient(m: nat, t: nat, q: nat, r: nat, k: nat)
    requires m * k + t == q * k + r && t < k && r < k
    ensures m == q
  {
    if m > q {
      AtLeast(m, q, k);
    } else if q > m {
      AtLeast(q, m, k);
    }
  }

  lemma {:induction false} AtLeast(m: nat, q: nat, k: nat)
    requires m > q
    ensures m * k >= q * k + k
  {
    if m > q + 1 { AtLeast(m - 1, q, k); }
    assert m * k == (m - 1) * k + k;
  }

  /** A serial that stays tracked and away is reported again: with the limit at 2, on the second
      and on the fourth scan. */
  method ReportedTwice() returns (first: set<string>, second: set<string>)
    ensures "AAA" in first && "AAA" in second
  {
    hide Streak;
    ghost var scan := Scan({"AAA"}, {});
    AllMissed(scan, "AAA", [scan, scan]);
    AllMissed(scan, "AAA", [scan, scan, scan, scan]);
    var p := new Presence(2);
    var gone := p.Update({"AAA"}, {});
    first := p.Update({"AAA"}, {});
    assert p.history == [scan, scan];
    gone := p.Update({"AAA"}, {});
    second := p.Update({"AAA"}, {});
    assert p.history == [scan, scan, scan, scan];
  }

  lemma {:induction false} AllMissed(scan: Scan, s: string, h: seq<Scan>)
    requires Missing(scan, s) && forall i :: 0 <= i < |h| ==> h[i] == scan
    ensures Streak(h, s) == |h|
  {
    if h != [] { AllMissed(scan, s, h[..|h| - 1]); }
  }
}

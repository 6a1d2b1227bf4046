/** host/gui/auto_connect.cpp and the parts of host/gui/main_window.cpp that carry its plan out:
    which discovered tablets to connect, the cable taking over from the network. */
module AutoConnect {
  datatype Candidate = Candidate(key: string, id: string, eligible: bool)
  datatype Session = Session(key: string, id: string)
  datatype Plan = Plan(connect: seq<string>, disconnect: seq<string>)

  predicate StartsWith(s: string, prefix: string) {
    |prefix| <= |s| && s[..|prefix|] == prefix
  }

  predicate IsUsb(key: string) {
    StartsWith(key, "usb-aoa:") || StartsWith(key, "usb:")
  }

  /** What is streaming: the session keys, the device ids on the cable, and the session key of
      each device id on the network. The empty id is no identity. */
  datatype Status = Status(keys: set<string>, usb: set<string>, net: map<string, string>)

  function StatusOf(active: seq<Session>): Status {
    if active == [] then Status({}, {}, map[])
    else
      var a := active[|active| - 1];
      var st := StatusOf(active[..|active| - 1]);
      var keys := st.keys + {a.key};
      if a.id == "" then Status(keys, st.usb, st.net)
      else if IsUsb(a.key) then Status(keys, st.usb + {a.id}, st.net)
      else Status(keys, st.usb, st.net[a.id := a.key])
  }

  /** One decision of a pass, with the device id it is about. */
  datatype Action = Connect(key: string, id: string) | Disconnect(key: string, id: string)

  function Picked(actions: seq<Action>): set<string> {
    set a <- actions | a.id != "" :: a.id
  }

  function Act(c: Candidate, st: Status, picked: set<string>): seq<Action> {
    if !c.eligible || c.key in st.keys || c.id in picked then []
    else if c.id == "" then [Connect(c.key, "")]
    else if c.id in st.usb then []
    else if c.id in st.net then
      if IsUsb(c.key) then [Disconnect(st.net[c.id], c.id)] else []
    else [Connect(c.key, c.id)]
  }

  function Scan(cs: seq<Candidate>, st: Status): seq<Action> {
    if cs == [] then []
    else
      var before := Scan(cs[..|cs| - 1], st);
      before + Act(cs[|cs| - 1], st, Picked(before))
  }

  function OnTransport(cs: seq<Candidate>, usb: bool): seq<Candidate> {
    if cs == [] then []
    else
      var last := cs[|cs| - 1];
      OnTransport(cs[..|cs| - 1], usb) + (if IsUsb(last.key) == usb then [last] else [])
  }

  function Ordered(cs: seq<Candidate>): seq<Candidate> {
    OnTransport(cs, true) + OnTransport(cs, false)
  }

  function KeysOf(actions: seq<Action>, connect: bool): seq<string> {
    if actions == [] then []
    else
      var last := actions[|actions| - 1];
      KeysOf(actions[..|actions| - 1], connect) + (if last.Connect? == connect then [last.key] else [])
  }

  function Actions(cs: seq<Candidate>, active: seq<Session>): seq<Action> {
    Scan(Ordered(cs), StatusOf(active))
  }

  function PlanOf(actions: seq<Action>): Plan {
    Plan(KeysOf(actions, true), KeysOf(actions, false))
  }

  method FilterTransport(cs: seq<Candidate>, usb: bool) returns (r: seq<Candidate>)
    ensures r == OnTransport(cs, usb)
  {
    r := [];
    for i := 0 to |cs|
      invariant r == OnTransport(cs[..i], usb)
    {
      assert cs[..i + 1][..i] == cs[..i];
      if IsUsb(cs[i].key) == usb {
        r := r + [cs[i]];
      }
    }
    assert cs[..|cs|] == cs;
  }

  method Survey(active: seq<Session>)
    returns (keys: set<string>, usbIds: set<string>, netKeyById: map<string, string>)
    ensures Status(keys, usbIds, netKeyById) == StatusOf(active)
  {
    keys, usbIds, netKeyById := {}, {}, map[];
    for i := 0 to |active|
      invariant Status(keys, usbIds, netKeyById) == StatusOf(active[..i])
    {
      assert active[..i + 1][..i] == active[..i];
      var a := active[i];
      keys := keys + {a.key};
      if a.id != "" {
        if IsUsb(a.key) {
          usbIds := usbIds + {a.id};
        } else {
          netKeyById := netKeyById[a.id := a.key];
        }
      }
    }
    assert active[..|active|] == active;
  }

  method DevicesToConnect(enabled: bool, candidates: seq<Candidate>, active: seq<Session>)
    returns (plan: Plan)
    ensures plan == if enabled then PlanOf(Actions(candidates, active)) else Plan([], [])
  {
    hide Scan, KeysOf, OnTransport, StatusOf, IsUsb, StartsWith, Picked;
    plan := Plan([], []);
    if !enabled {
      return;
    }
    var activeKeys, usbIds, netKeyById := Survey(active);
    var usbFirst := FilterTransport(candidates, true);
    var others := FilterTransport(candidates, false);
    var ordered := usbFirst + others;
    var picked: set<string> := {};
    ghost var st := Status(activeKeys, usbIds, netKeyById);
    NoEmptyIds(active);
    NothingYet(st);
    for i := 0 to |ordered|
      invariant plan == PlanOf(Scan(ordered[..i], st))
      invariant picked == Picked(Scan(ordered[..i], st)) && "" !in picked
    {
      ScanNext(ordered, st, i);
      var c := ordered[i];
      if !c.eligible || c.key in activeKeys { continue; }
      if c.id != "" && c.id in picked { continue; }
      if c.id != "" && c.id in usbIds { continue; }
      if IsUsb(c.key) && c.id != "" && c.id in netKeyById {
        plan := plan.(disconnect := plan.disconnect + [netKeyById[c.id]]);
        picked := picked + {c.id};
        continue;
      }
      if c.id != "" && c.id in netKeyById { continue; }
      plan := plan.(connect := plan.connect + [c.key]);
      if c.id != "" {
        picked := picked + {c.id};
      }
    }
    assert ordered[..|ordered|] == ordered;
  }

  lemma NothingYet(st: Status)
    ensures Scan([], st) == [] && Picked([]) == {} && PlanOf([]) == Plan([], [])
  {
  }

  lemma ScanNext(cs: seq<Candidate>, st: Status, i: nat)
    requires i < |cs|
    ensures var before := Scan(cs[..i], st);
            var more := Act(cs[i], st, Picked(before));
            && Scan(cs[..i + 1], st) == before + more
            && |more| <= 1 && (more == [] ==> before + more == before)
            && (more != [] ==> Picked(before + more) == Picked(before) + if more[0].id == "" then {} else {more[0].id})
            && forall b: bool {:trigger KeysOf(before, b)} :: KeysOf(before + more, b) ==
                 KeysOf(before, b) + if more != [] && more[0].Connect? == b then [more[0].key] else []
  {
    assert cs[..i + 1][..i] == cs[..i];
    var before := Scan(cs[..i], st);
    var more := Act(cs[i], st, Picked(before));
    if more != [] {
      assert (before + more)[..|before|] == before;
    } else {
      assert before + more == before;
    }
  }

  lemma {:induction false} NoEmptyIds(active: seq<Session>)
    ensures "" !in StatusOf(active).usb && "" !in StatusOf(active).net
  {
    if active != [] {
      NoEmptyIds(active[..|active| - 1]);
    }
  }

  /** A candidate a pass would still act on, if no other candidate of the device came first. */
  predicate Wants(c: Candidate, st: Status) {
    && c.eligible && c.key !in st.keys
    && (c.id == "" || (c.id !in st.usb && (IsUsb(c.key) || c.id !in st.net)))
  }

  /** `a` is what candidate `c` asks for. */
  predicate AsksFor(c: Candidate, st: Status, a: Action) {
    && Wants(c, st) && a.id == c.id
    && match a {
       case Connect(k, id) => k == c.key && (id == "" || id !in st.net)
       case Disconnect(k, id) => id != "" && IsUsb(c.key) && id in st.net && k == st.net[id]
       }
  }

  lemma {:induction false} EveryActionAsked(cs: seq<Candidate>, st: Status, a: Action) returns (c: Candidate)
    requires a in Scan(cs, st)
    ensures c in cs && AsksFor(c, st, a)
  {
    var front := cs[..|cs| - 1];
    if a in Scan(front, st) {
      c := EveryActionAsked(front, st, a);
    } else {
      c := cs[|cs| - 1];
    }
  }

  lemma {:induction false} EveryWantServed(cs: seq<Candidate>, st: Status, c: Candidate) returns (a: Action)
    requires c in cs && Wants(c, st)
    ensures a in Scan(cs, st) && a.id == c.id
    ensures c.id == "" ==> a == Connect(c.key, "")
  {
    var front := cs[..|cs| - 1];
    var before := Scan(front, st);
    if c in front {
      a := EveryWantServed(front, st, c);
    } else if c.id != "" && c.id in Picked(before) {
      a :| a in before && a.id == c.id;
    } else {
      assert "" !in Picked(before);
      a := Act(c, st, Picked(before))[0];
    }
  }

  /** A pass acts on a device at most once. */
  lemma {:induction false} NoDeviceTwice(cs: seq<Candidate>, st: Status, i: nat, j: nat)
    requires i < j < |Scan(cs, st)| && Scan(cs, st)[i].id == Scan(cs, st)[j].id
    ensures Scan(cs, st)[i].id == ""
  {
    var front := cs[..|cs| - 1];
    var before := Scan(front, st);
    if j < |before| {
      NoDeviceTwice(front, st, i, j);
    } else {
      assert before[i] in before;
    }
  }

  /** With the cable candidates first, no network key is connected for a device that one of
      them wants. */
  lemma {:induction false} CableFirst(us: seq<Candidate>, ns: seq<Candidate>, st: Status, k: string, c: Candidate)
    requires forall u <- us :: IsUsb(u.key)
    requires c in us && Wants(c, st) && c.id != "" && !IsUsb(k)
    ensures Connect(k, c.id) !in Scan(us + ns, st)
  {
    if ns == [] {
      assert us + ns == us;
      if Connect(k, c.id) in Scan(us, st) {
        var d := EveryActionAsked(us, st, Connect(k, c.id));
      }
    } else {
      var front := ns[..|ns| - 1];
      assert (us + ns)[..|us + ns| - 1] == us + front;
      CableFirst(us, front, st, k, c);
      assert c in us + front;
      var a := EveryWantServed(us + front, st, c);
      assert a.id in Picked(Scan(us + front, st));
    }
  }

  lemma {:induction false} OrderedHasAll(cs: seq<Candidate>, usb: bool, c: Candidate)
    ensures c in OnTransport(cs, usb) <==> c in cs && IsUsb(c.key) == usb
  {
    if cs != [] {
      OrderedHasAll(cs[..|cs| - 1], usb, c);
      assert cs == cs[..|cs| - 1] + [cs[|cs| - 1]];
    }
  }

  lemma {:induction false} KeyActed(actions: seq<Action>, connect: bool, k: string)
    ensures k in KeysOf(actions, connect) <==> exists a <- actions :: a.key == k && a.Connect? == connect
  {
    if actions != [] {
      KeyActed(actions[..|actions| - 1], connect, k);
      assert actions == actions[..|actions| - 1] + [actions[|actions| - 1]];
    }
  }

  predicate HasKey(active: seq<Session>, k: string) {
    exists s <- active :: s.key == k
  }

  predicate Streams(active: seq<Session>, x: string, usb: bool) {
    exists s <- active :: s.id == x && IsUsb(s.key) == usb
  }

  lemma Snoc<T>(q: seq<T>, x: T)
    requires q != []
    ensures x in q <==> x in q[..|q| - 1] || x == q[|q| - 1]
  {
    assert q == q[..|q| - 1] + [q[|q| - 1]];
  }

  lemma {:induction false} KeyStatus(active: seq<Session>, k: string)
    ensures k in StatusOf(active).keys <==> HasKey(active, k)
  {
    if active != [] {
      var front, last := active[..|active| - 1], active[|active| - 1];
      KeyStatus(front, k);
      assert last in active;
      forall s: Session ensures s in active <==> s in front || s == last { Snoc(active, s); }
      assert HasKey(active, k) <==> HasKey(front, k) || last.key == k;
    }
  }

  lemma {:induction false} IdStatus(active: seq<Session>, x: string)
    ensures x in StatusOf(active).usb <==> x != "" && Streams(active, x, true)
    ensures x in StatusOf(active).net <==> x != "" && Streams(active, x, false)
    ensures x in StatusOf(active).net ==>
              Session(StatusOf(active).net[x], x) in active && !IsUsb(StatusOf(active).net[x])
  {
    hide IsUsb;
    if active != [] {
      var front, last := active[..|active| - 1], active[|active| - 1];
      IdStatus(front, x);
      assert last in active;
      forall s: Session ensures s in active <==> s in front || s == last { Snoc(active, s); }
      assert Streams(active, x, true) <==> Streams(front, x, true) || (last.id == x && IsUsb(last.key));
      assert Streams(active, x, false) <==> Streams(front, x, false) || (last.id == x && !IsUsb(last.key));
    }
  }

  // ---- Carrying the plan out

  /** Two sessions of different devices. */
  predicate Apart(s: Session, t: Session) {
    s.key != t.key && (s.id == t.id ==> s.id == "")
  }

  predicate Unique(active: seq<Session>) {
    active == [] || (Unique(active[1..]) && forall t <- active[1..] :: Apart(active[0], t))
  }

  /** One device is one identity, and it has one session at most. */
  ghost predicate Consistent(cs: seq<Candidate>, active: seq<Session>) {
    && (forall c <- cs, d <- cs :: c.key == d.key ==> c.id == d.id)
    && (forall c <- cs, s <- active :: c.key == s.key ==> c.id == s.id)
    && Unique(active)
  }

  function Stopped(active: seq<Session>, key: string): seq<Session> {
    if active == [] then []
    else if active[0].key == key then active[1..]
    else [active[0]] + Stopped(active[1..], key)
  }

  function StopAll(active: seq<Session>, keys: seq<string>): seq<Session> {
    if keys == [] then active else Stopped(StopAll(active, keys[..|keys| - 1]), keys[|keys| - 1])
  }

  /** The guard of connectDevice: one session a key, and one a device. */
  predicate Busy(active: seq<Session>, key: string, id: string) {
    exists s <- active :: s.key == key || (id != "" && s.id == id)
  }

  function Connected(active: seq<Session>, key: string, id: string): seq<Session> {
    if Busy(active, key, id) then active else active + [Session(key, id)]
  }

  /** The id of the first device listed under a key. */
  function IdOf(cs: seq<Candidate>, key: string): string {
    if cs == [] then "" else if cs[0].key == key then cs[0].id else IdOf(cs[1..], key)
  }

  function ConnectAll(cs: seq<Candidate>, active: seq<Session>, keys: seq<string>): seq<Session> {
    if keys == [] then active
    else
      var k := keys[|keys| - 1];
      Connected(ConnectAll(cs, active, keys[..|keys| - 1]), k, IdOf(cs, k))
  }

  function Apply(cs: seq<Candidate>, plan: Plan, active: seq<Session>): seq<Session> {
    ConnectAll(cs, StopAll(active, plan.disconnect), plan.connect)
  }

  function Evaluate(cs: seq<Candidate>, active: seq<Session>): seq<Session> {
    Apply(cs, PlanOf(Actions(cs, active)), active)
  }

  lemma {:induction false} UniqueApart(active: seq<Session>, s: Session, t: Session)
    requires Unique(active) && s in active && t in active && s != t
    ensures Apart(s, t)
  {
    assert active == [active[0]] + active[1..];
    if s in active[1..] && t in active[1..] {
      UniqueApart(active[1..], s, t);
    }
  }

  lemma {:induction false} UniqueSnoc(active: seq<Session>, s: Session)
    requires Unique(active) && forall t <- active :: Apart(t, s)
    ensures Unique(active + [s])
  {
    if active != [] {
      UniqueSnoc(active[1..], s);
      assert (active + [s])[1..] == active[1..] + [s];
    }
  }

  lemma {:induction false} StoppedMeaning(active: seq<Session>, key: string)
    requires Unique(active)
    ensures Unique(Stopped(active, key))
    ensures forall s :: s in Stopped(active, key) <==> s in active && s.key != key
  {
    if active != [] {
      assert active == [active[0]] + active[1..];
      StoppedMeaning(active[1..], key);
      assert active[0].key != key ==> Stopped(active, key)[1..] == Stopped(active[1..], key);
    }
  }

  lemma {:induction false} StopAllMeaning(active: seq<Session>, keys: seq<string>)
    requires Unique(active)
    ensures Unique(StopAll(active, keys))
    ensures forall s :: s in StopAll(active, keys) <==> s in active && s.key !in keys
  {
    if keys != [] {
      var front := keys[..|keys| - 1];
      StopAllMeaning(active, front);
      StoppedMeaning(StopAll(active, front), keys[|keys| - 1]);
      assert keys == front + [keys[|keys| - 1]];
    }
  }

  /** What connecting a list of keys leaves: nobody loses a session, every session is an old
      one or was asked for, and whoever was asked for has one. */
  ghost predicate ConnectedAll(cs: seq<Candidate>, active: seq<Session>, keys: seq<string>, now: seq<Session>) {
    && Unique(now)
    && (forall s <- active :: s in now)
    && (forall s <- now :: s in active || (s.key in keys && s.id == IdOf(cs, s.key)))
    && (forall k <- keys :: Busy(now, k, IdOf(cs, k)))
  }

  lemma ConnectOne(cs: seq<Candidate>, active: seq<Session>, keys: seq<string>, mid: seq<Session>, k: string)
    requires ConnectedAll(cs, active, keys, mid)
    ensures ConnectedAll(cs, active, keys + [k], Connected(mid, k, IdOf(cs, k)))
  {
    hide IdOf, Unique;
    var id := IdOf(cs, k);
    var now := Connected(mid, k, id);
    if !Busy(mid, k, id) {
      forall t <- mid ensures Apart(t, Session(k, id)) {
        assert !(t.key == k || (id != "" && t.id == id));
      }
      UniqueSnoc(mid, Session(k, id));
      assert Session(k, id) in now;
    }
    assert Busy(now, k, id);
    forall j <- keys + [k] ensures Busy(now, j, IdOf(cs, j)) {
      if j in keys {
        StillBusy(mid, now, j, IdOf(cs, j));
      }
    }
  }

  lemma StillBusy(active: seq<Session>, now: seq<Session>, key: string, id: string)
    requires Busy(active, key, id) && forall s <- active :: s in now
    ensures Busy(now, key, id)
  {
  }

  lemma {:induction false} ConnectAllMeaning(cs: seq<Candidate>, active: seq<Session>, keys: seq<string>)
    requires Unique(active)
    ensures ConnectedAll(cs, active, keys, ConnectAll(cs, active, keys))
  {
    hide IdOf, ConnectedAll, Connected;
    if keys != [] {
      var front := keys[..|keys| - 1];
      assert keys == front + [keys[|keys| - 1]];
      ConnectAllMeaning(cs, active, front);
      ConnectOne(cs, active, front, ConnectAll(cs, active, front), keys[|keys| - 1]);
    } else {
      NoneAsked(cs, active);
    }
  }

  lemma NoneAsked(cs: seq<Candidate>, active: seq<Session>)
    requires Unique(active)
    ensures ConnectedAll(cs, active, [], active)
  {
  }

  lemma {:induction false} IdOfListed(cs: seq<Candidate>, c: Candidate)
    requires c in cs && forall d <- cs :: d.key == c.key ==> d.id == c.id
    ensures IdOf(cs, c.key) == c.id
  {
    assert cs == [cs[0]] + cs[1..];
    if cs[0].key != c.key {
      IdOfListed(cs[1..], c);
    }
  }

  // ---- Convergence

  ghost predicate Quiet(cs: seq<Candidate>, active: seq<Session>) {
    forall c <- cs :: !Wants(c, StatusOf(active))
  }

  /** No tablet streams over the network while its cable could be used. */
  ghost predicate CableTaken(cs: seq<Candidate>, active: seq<Session>) {
    forall c <- cs :: c.eligible && IsUsb(c.key) && c.id != "" ==> !Streams(active, c.id, false)
  }

  lemma InOrdered(cs: seq<Candidate>, c: Candidate)
    ensures c in Ordered(cs) <==> c in cs
  {
    OrderedHasAll(cs, true, c);
    OrderedHasAll(cs, false, c);
  }

  /** The plan is empty exactly when no candidate wants anything. */
  lemma PlanEmpty(cs: seq<Candidate>, active: seq<Session>)
    ensures PlanOf(Actions(cs, active)) == Plan([], []) <==> Quiet(cs, active)
  {
    hide StatusOf, Scan, Ordered;
    var actions := Actions(cs, active);
    var st := StatusOf(active);
    if Quiet(cs, active) && actions != [] {
      var c := EveryActionAsked(Ordered(cs), st, actions[0]);
      InOrdered(cs, c);
    }
    if !Quiet(cs, active) {
      var c :| c in cs && Wants(c, st);
      InOrdered(cs, c);
      var a := EveryWantServed(Ordered(cs), st, c);
      KeyActed(actions, a.Connect?, a.key);
    }
  }

  /** One evaluation, seen from the sessions after it. */
  ghost predicate Evaluated(cs: seq<Candidate>, active: seq<Session>, now: seq<Session>) {
    var p := PlanOf(Actions(cs, active));
    && (forall s <- active :: s.key !in p.disconnect ==> s in now)
    && (forall s <- now :: (s in active && s.key !in p.disconnect) || (s.key in p.connect && s.id == IdOf(cs, s.key)))
    && (forall k <- p.connect :: Busy(now, k, IdOf(cs, k)))
  }

  lemma EvaluateMeaning(cs: seq<Candidate>, active: seq<Session>)
    requires Consistent(cs, active)
    ensures Evaluated(cs, active, Evaluate(cs, active)) && Consistent(cs, Evaluate(cs, active))
  {
    hide Actions, PlanOf, IdOf, ConnectAll, StopAll, Unique, Busy;
    var p := PlanOf(Actions(cs, active));
    var now := Evaluate(cs, active);
    StopAllMeaning(active, p.disconnect);
    ConnectAllMeaning(cs, StopAll(active, p.disconnect), p.connect);
    forall c <- cs, s <- now | c.key == s.key ensures c.id == s.id {
      IdOfListed(cs, c);
    }
  }

  /** Who is connected: an eligible candidate, whose device has no session at all; over the
      network only if no eligible candidate offers the cable. */
  lemma ConnectedRightly(cs: seq<Candidate>, active: seq<Session>, k: string) returns (c: Candidate)
    requires Consistent(cs, active) && k in PlanOf(Actions(cs, active)).connect
    ensures c in cs && c.eligible && c.key == k && c.id == IdOf(cs, k) && !HasKey(active, k)
    ensures c.id != "" ==> !Streams(active, c.id, true) && !Streams(active, c.id, false)
    ensures c.id != "" && !IsUsb(k) ==>
              forall d <- cs :: d.eligible && IsUsb(d.key) ==> d.id != c.id
  {
    hide StatusOf, Scan, Ordered, IsUsb, IdOf, Streams, Unique, HasKey;
    var st := StatusOf(active);
    var actions := Actions(cs, active);
    KeyActed(actions, true, k);
    var a :| a in actions && a.key == k && a.Connect?;
    c := EveryActionAsked(Ordered(cs), st, a);
    InOrdered(cs, c);
    IdOfListed(cs, c);
    KeyStatus(active, k);
    IdStatus(active, c.id);
    if c.id != "" && !IsUsb(k) {
      forall d <- cs | d.eligible && IsUsb(d.key) ensures d.id != c.id {
        if d.id == c.id {
          CableWins(cs, active, d, k);
        }
      }
    }
  }

  lemma CableWins(cs: seq<Candidate>, active: seq<Session>, d: Candidate, k: string)
    requires Consistent(cs, active) && d in cs && d.eligible && IsUsb(d.key) && d.id != "" && !IsUsb(k)
    ensures Connect(k, d.id) !in Actions(cs, active)
  {
    hide StatusOf, Scan, IsUsb, Unique, OnTransport;
    var st := StatusOf(active);
    KeyStatus(active, d.key);
    IdStatus(active, d.id);
    forall u <- OnTransport(cs, true) ensures IsUsb(u.key) { OrderedHasAll(cs, true, u); }
    OrderedHasAll(cs, true, d);
    if Wants(d, st) {
      CableFirst(OnTransport(cs, true), OnTransport(cs, false), st, k, d);
    } else if Connect(k, d.id) in Actions(cs, active) {
      var c := EveryActionAsked(Ordered(cs), st, Connect(k, d.id));
    }
  }

  /** Who is stopped: the network session of a device with an eligible candidate on the cable,
      and every such session is. */
  lemma StoppedRightly(cs: seq<Candidate>, active: seq<Session>, s: Session)
    requires Consistent(cs, active) && s in active
    ensures s.key in PlanOf(Actions(cs, active)).disconnect <==>
              s.id != "" && !IsUsb(s.key) && exists c <- cs :: c.eligible && IsUsb(c.key) && c.id == s.id
  {
    hide StatusOf, Scan, Ordered, IsUsb, Unique;
    var st := StatusOf(active);
    var actions := Actions(cs, active);
    KeyActed(actions, false, s.key);
    if s.key in PlanOf(actions).disconnect {
      var a :| a in actions && a.key == s.key && a.Disconnect?;
      var c := EveryActionAsked(Ordered(cs), st, a);
      InOrdered(cs, c);
      IdStatus(active, c.id);
      SameSession(active, s, Session(st.net[c.id], c.id));
    }
    if s.id != "" && !IsUsb(s.key) {
      if c :| c in cs && c.eligible && IsUsb(c.key) && c.id == s.id {
        TakenOver(cs, active, s, c);
      }
    }
  }

  // ---- The adb cable

  /** Keys of sessions over a cable: the two prefixes the code knows, and adb. */
  predicate IsCable(key: string) {
    IsUsb(key) || IsAdb(key)
  }

  predicate IsAdb(key: string) {
    StartsWith(key, "usb-adb:")
  }

  lemma AdbIsNotUsb(key: string)
    ensures !(IsAdb(key) && IsUsb(key))
  {
    if IsAdb(key) {
      assert key[..8][3] == key[3] == '-' && key[..8][5] == key[5] == 'd';
      assert key[..4][3] == key[3];
    }
  }

  /** A pass stops no cable session, exactly when no adb session's device is also a candidate the
      code counts as cable. */
  lemma CableSessionsStay(cs: seq<Candidate>, active: seq<Session>)
    requires Consistent(cs, active)
    ensures (forall s <- active :: IsCable(s.key) ==> s.key !in PlanOf(Actions(cs, active)).disconnect) <==>
            !exists s <- active, c <- cs :: IsAdb(s.key) && s.id != "" && c.eligible && IsUsb(c.key) && c.id == s.id
  {
    hide Actions, PlanOf, IsUsb, IsAdb, Unique;
    forall s <- active
      ensures IsCable(s.key) && s.key in PlanOf(Actions(cs, active)).disconnect <==>
              IsAdb(s.key) && s.id != "" && exists c <- cs :: c.eligible && IsUsb(c.key) && c.id == s.id
    {
      AdbIsNotUsb(s.key);
      StoppedRightly(cs, active, s);
    }
  }

  /** A tablet streaming over adb that is also listed as an accessory, under the same serial:
      its working cable session is stopped. */
  lemma AdbSessionStopped()
    ensures "usb-adb:S" in PlanOf(Actions([Candidate("usb-aoa:S", "S", true)], [Session("usb-adb:S", "S")])).disconnect
  {
    var c, s := Candidate("usb-aoa:S", "S", true), Session("usb-adb:S", "S");
    assert [s][1..] == [] && Unique([]);
    assert Unique([s]);
    AdbIsNotUsb(s.key);
    assert StartsWith(s.key, "usb-adb:") && StartsWith(c.key, "usb-aoa:");
    StoppedRightly([c], [s], s);
  }

  lemma SameSession(active: seq<Session>, s: Session, t: Session)
    requires Unique(active) && s in active && t in active
    requires s.key == t.key || (s.id == t.id && s.id != "")
    ensures s == t
  {
    if s != t {
      UniqueApart(active, s, t);
    }
  }

  lemma TakenOver(cs: seq<Candidate>, active: seq<Session>, s: Session, c: Candidate)
    requires Consistent(cs, active) && s in active && s.id != "" && !IsUsb(s.key)
    requires c in cs && c.eligible && IsUsb(c.key) && c.id == s.id
    ensures s.key in PlanOf(Actions(cs, active)).disconnect
  {
    hide StatusOf, Scan, Ordered, IsUsb, Unique;
    var st := StatusOf(active);
    KeyStatus(active, c.key);
    IdStatus(active, c.id);
    assert Streams(active, c.id, false);
    forall t <- active ensures t.key != c.key && !(t.id == c.id && IsUsb(t.key)) {
      if t.id == c.id { SameSession(active, s, t); }
    }
    SameSession(active, s, Session(st.net[c.id], c.id));
    InOrdered(cs, c);
    var a := EveryWantServed(Ordered(cs), st, c);
    var d := EveryActionAsked(Ordered(cs), st, a);
    KeyActed(Actions(cs, active), false, s.key);
  }

  /** After any evaluation every usable cable is taken or free. */
  lemma CableTakenAfter(cs: seq<Candidate>, active: seq<Session>)
    requires Consistent(cs, active)
    ensures CableTaken(cs, Evaluate(cs, active))
  {
    hide Evaluate, Actions, PlanOf, IdOf, IsUsb, Unique, Busy;
    EvaluateMeaning(cs, active);
    forall c <- cs, s <- Evaluate(cs, active) | c.eligible && IsUsb(c.key) && c.id != "" && s.id == c.id
      ensures IsUsb(s.key)
    {
      if !IsUsb(s.key) {
        if s in active {
          StoppedRightly(cs, active, s);
        }
        if s.key in PlanOf(Actions(cs, active)).connect {
          var d := ConnectedRightly(cs, active, s.key);
        }
      }
    }
  }

  /** A candidate wanting something gets it from the next evaluation. */
  lemma WantServed(cs: seq<Candidate>, active: seq<Session>, c: Candidate)
    requires Consistent(cs, active) && c in cs && Wants(c, StatusOf(active))
    requires PlanOf(Actions(cs, active)).disconnect == []
    ensures var now := Evaluate(cs, active);
            if c.id == "" then HasKey(now, c.key) else Streams(now, c.id, true) || Streams(now, c.id, false)
  {
    hide Evaluate, IsUsb, Unique, StatusOf, KeysOf, Ordered, Scan;
    var now := Evaluate(cs, active);
    var st := StatusOf(active);
    var actions := Actions(cs, active);
    EvaluateMeaning(cs, active);
    InOrdered(cs, c);
    var a := EveryWantServed(Ordered(cs), st, c);
    KeyActed(actions, a.Connect?, a.key);
    var d := EveryActionAsked(Ordered(cs), st, a);
    InOrdered(cs, d);
    IdOfListed(cs, d);
    var s :| s in now && (s.key == a.key || (c.id != "" && s.id == c.id));
    assert c.id != "" ==> s.id == c.id;
    assert IsUsb(s.key) || !IsUsb(s.key);
  }

  lemma NothingStopped(cs: seq<Candidate>, active: seq<Session>)
    requires CableTaken(cs, active)
    ensures PlanOf(Actions(cs, active)).disconnect == []
  {
    hide IsUsb, StatusOf, KeysOf, Ordered, Scan;
    var ks := PlanOf(Actions(cs, active)).disconnect;
    if ks != [] {
      KeyActed(Actions(cs, active), false, ks[0]);
      var a :| a in Actions(cs, active) && a.Disconnect?;
      var c := EveryActionAsked(Ordered(cs), StatusOf(active), a);
      InOrdered(cs, c);
      IdStatus(active, c.id);
    }
  }

  /** With the cables taken, an evaluation stops nothing and satisfies every candidate. */
  lemma QuietAfter(cs: seq<Candidate>, active: seq<Session>)
    requires Consistent(cs, active) && CableTaken(cs, active)
    ensures PlanOf(Actions(cs, active)).disconnect == []
    ensures Quiet(cs, Evaluate(cs, active))
  {
    hide Evaluate, IdOf, IsUsb, Unique, StatusOf, PlanOf, Actions;
    NothingStopped(cs, active);
    var now := Evaluate(cs, active);
    EvaluateMeaning(cs, active);
    CableTakenAfter(cs, active);
    forall c <- cs ensures !Wants(c, StatusOf(now)) {
      if Wants(c, StatusOf(now)) {
        KeyStatus(now, c.key);
        IdStatus(now, c.id);
        KeyStatus(active, c.key);
        IdStatus(active, c.id);
        StillStreaming(active, now, c);
        WantServed(cs, active, c);
        assert false;
      }
    }
  }

  lemma StillStreaming(active: seq<Session>, now: seq<Session>, c: Candidate)
    requires forall s <- active :: s in now
    ensures HasKey(active, c.key) ==> HasKey(now, c.key)
    ensures forall usb :: Streams(active, c.id, usb) ==> Streams(now, c.id, usb)
  {
  }

  /** From any consistent start the third plan is empty; if the first stops nothing, already
      the second is. So a follow-up is needed only after a plan that stops something. */
  lemma Converges(cs: seq<Candidate>, active: seq<Session>)
    requires Consistent(cs, active)
    ensures var second := Evaluate(cs, active);
            var third := Evaluate(cs, second);
            && Consistent(cs, third)
            && PlanOf(Actions(cs, second)).disconnect == []
            && PlanOf(Actions(cs, third)) == Plan([], [])
            && (PlanOf(Actions(cs, active)).disconnect == [] ==> PlanOf(Actions(cs, second)) == Plan([], []))
  {
    hide Evaluate, PlanOf, Actions, Consistent, Quiet, CableTaken;
    var second := Evaluate(cs, active);
    EvaluateMeaning(cs, active);
    EvaluateMeaning(cs, second);
    CableTakenAfter(cs, active);
    QuietAfter(cs, second);
    PlanEmpty(cs, Evaluate(cs, second));
    if PlanOf(Actions(cs, active)).disconnect == [] {
      NobodyToStop(cs, active);
      QuietAfter(cs, active);
      PlanEmpty(cs, second);
    }
  }

  lemma NobodyToStop(cs: seq<Candidate>, active: seq<Session>)
    requires Consistent(cs, active) && PlanOf(Actions(cs, active)).disconnect == []
    ensures CableTaken(cs, active)
  {
    hide PlanOf, Actions, IsUsb;
    forall c <- cs, s <- active | c.eligible && IsUsb(c.key) && c.id != "" && s.id == c.id
      ensures IsUsb(s.key)
    {
      StoppedRightly(cs, active, s);
    }
  }

  /** The session list of the main window. */
  class Sessions {
    var list: seq<Session>

    constructor (active: seq<Session>)
      ensures list == active
    {
      list := active;
    }

    method Stop(key: string)
      modifies this
      ensures list == Stopped(old(list), key)
    {
      ghost var was := list;
      var i := 0;
      while i < |list| && list[i].key != key
        invariant i <= |list| && list == was && Stopped(was, key) == was[..i] + Stopped(was[i..], key)
      {
        assert was[i..][1..] == was[i + 1..];
        i := i + 1;
      }
      if i < |list| {
        assert was[i..][1..] == was[i + 1..];
        list := list[..i] + list[i + 1..];
      } else {
        assert was[..i] + [] == was;
      }
    }

    method ConnectDevice(key: string, id: string) returns (started: bool)
      modifies this
      ensures list == Connected(old(list), key, id) && started == !Busy(old(list), key, id)
    {
      for i := 0 to |list|
        invariant list == old(list)
        invariant forall s <- list[..i] :: s.key != key && (id == "" || s.id != id)
      {
        if list[i].key == key || (id != "" && list[i].id == id) {
          return false;
        }
        Snoc(list[..i + 1], list[i]);
      }
      assert list[..|list|] == list;
      list := list + [Session(key, id)];
      started := true;
    }

    /** One evaluation of the auto-connect timer, `devices` being the device list. */
    method EvaluateAutoConnect(devices: seq<Candidate>) returns (plan: Plan)
      modifies this
      ensures plan == PlanOf(Actions(devices, old(list))) && list == Evaluate(devices, old(list))
    {
      hide PlanOf, Actions, IdOf, Connected, Stopped;
      plan := DevicesToConnect(true, devices, list);
      var was := list;
      for i := 0 to |plan.disconnect|
        invariant list == StopAll(was, plan.disconnect[..i])
      {
        assert plan.disconnect[..i + 1][..i] == plan.disconnect[..i];
        Stop(plan.disconnect[i]);
      }
      assert plan.disconnect[..|plan.disconnect|] == plan.disconnect;
      var stopped := list;
      for i := 0 to |plan.connect|
        invariant list == ConnectAll(devices, stopped, plan.connect[..i])
      {
        assert plan.connect[..i + 1][..i] == plan.connect[..i];
        var started := ConnectDevice(plan.connect[i], IdOf(devices, plan.connect[i]));
      }
      assert plan.connect[..|plan.connect|] == plan.connect;
    }

    /** The timer is armed again only after a plan that stops something; what it leaves asks for
        nothing more. */
    method Settle(devices: seq<Candidate>) returns (evaluations: nat)
      requires Consistent(devices, list)
      modifies this
      ensures evaluations <= 2
      ensures Consistent(devices, list) && PlanOf(Actions(devices, list)) == Plan([], [])
    {
      hide PlanOf, Actions, Evaluate, Consistent;
      ghost var was := list;
      Converges(devices, was);
      EvaluateMeaning(devices, was);
      var plan := EvaluateAutoConnect(devices);
      evaluations := 1;
      while plan.disconnect != []
        invariant if evaluations == 1 then list == Evaluate(devices, was) && plan == PlanOf(Actions(devices, was))
                  else evaluations == 2 && list == Evaluate(devices, Evaluate(devices, was)) && plan.disconnect == []
        decreases 2 - evaluations
      {
        plan := EvaluateAutoConnect(devices);
        evaluations := evaluations + 1;
      }
    }
  }

  /** The two prefixes, and nothing else. */
  lemma UsbKeys(key: string)
    ensures IsUsb(key) <==> exists rest: string :: key == "usb-aoa:" + rest || key == "usb:" + rest
    ensures IsAdb(key) <==> exists rest: string :: key == "usb-adb:" + rest
  {
    if StartsWith(key, "usb-aoa:") { assert key == "usb-aoa:" + key[8..]; }
    if StartsWith(key, "usb:") { assert key == "usb:" + key[4..]; }
    if StartsWith(key, "usb-adb:") { assert key == "usb-adb:" + key[8..]; }
    forall rest: string ensures StartsWith("usb-aoa:" + rest, "usb-aoa:") && StartsWith("usb:" + rest, "usb:") {
      assert ("usb-aoa:" + rest)[..8] == "usb-aoa:" && ("usb:" + rest)[..4] == "usb:";
    }
    forall rest: string ensures StartsWith("usb-adb:" + rest, "usb-adb:") {
      assert ("usb-adb:" + rest)[..8] == "usb-adb:";
    }
  }
}

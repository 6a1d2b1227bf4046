/** The events of one touch update, and what the kernel panel makes of them. */
module TouchReplay {
  import opened Bytes
  import opened TouchSlots
  import opened Evdev

  function LiftEvents(lifted: seq<nat>): seq<Event> {
    if lifted == [] then []
    else [MtSlot(lifted[0]), MtTracking(-1)] + LiftEvents(lifted[1..])
  }

  function AssignEvent(a: Assign): seq<Event> {
    [MtSlot(a.slot)] + (if a.isNew then [MtTracking(a.c.id)] else [])
    + [MtX(a.c.x), MtY(a.c.y), MtPressure(a.c.pressure)]
  }

  function AssignEvents(active: seq<Assign>): seq<Event> {
    if active == [] then [] else AssignEvent(active[0]) + AssignEvents(active[1..])
  }

  /** BTN_TOUCH on a change, and the primary contact as the single-touch pointer. */
  function ButtonEvents(contacts: seq<Contact>, wasDown: bool): seq<Event> {
    var down := contacts != [];
    (if down != wasDown then [BtnTouch(down)] else [])
    + (if down then [AbsX(contacts[0].x), AbsY(contacts[0].y), AbsPressure(contacts[0].pressure)] else [])
    + [Syn]
  }

  function TouchEvents(u: SlotUpdate, contacts: seq<Contact>, wasDown: bool): seq<Event> {
    LiftEvents(u.lifted) + AssignEvents(u.active) + ButtonEvents(contacts, wasDown)
  }

  /** The kernel hands an update on at its report event: an update has one, and it comes last. */
  lemma OneReport(u: SlotUpdate, contacts: seq<Contact>, wasDown: bool)
    ensures var es := TouchEvents(u, contacts, wasDown); var n := |es| - 1;
            n >= 0 && es[n] == Syn && forall i | 0 <= i < n :: es[i] != Syn
  {
    LiftsUnreported(u.lifted);
    AssignsUnreported(u.active);
    hide LiftEvents, AssignEvents;
    var lifts, moves, last := LiftEvents(u.lifted), AssignEvents(u.active), ButtonEvents(contacts, wasDown);
    assert forall e <- lifts :: e != Syn;
    assert forall e <- moves :: e != Syn;
    assert last[|last| - 1] == Syn;
    assert forall i | 0 <= i < |last| - 1 :: last[i] != Syn;
    var es := lifts + moves + last;
    forall i | 0 <= i < |es| - 1 ensures es[i] != Syn {
      if i < |lifts| {
        assert es[i] in lifts;
      } else if i < |lifts| + |moves| {
        assert es[i] in moves;
      }
    }
  }

  lemma {:induction false} LiftsUnreported(lifted: seq<nat>)
    ensures forall e <- LiftEvents(lifted) :: e != Syn
  {
    if lifted != [] { LiftsUnreported(lifted[1..]); }
  }

  lemma {:induction false} AssignsUnreported(active: seq<Assign>)
    ensures forall e <- AssignEvents(active) :: e != Syn
  {
    if active != [] { AssignsUnreported(active[1..]); }
  }

  // ----- The panel in step with the slot map -------------------------------

  ghost predicate Synced(p: Panel, m: Slots) {
    && p.ok
    && (forall s: nat :: s in p.fingers <==> s in m.Values)
    && (forall id :: id in m ==> m[id] in p.fingers && p.fingers[m[id]].id == id)
  }

  function Full(c: Contact): Finger {
    Finger(c.id, Some(c.x), Some(c.y), Some(c.pressure))
  }

  /** The last report of an id in a list of contacts. */
  function Last(cs: seq<Contact>, id: byte): Contact
    requires id in Ids(cs)
    decreases |cs|
  {
    LaterOrFirst(cs, id);
    if id in Ids(cs[1..]) then Last(cs[1..], id) else cs[0]
  }

  lemma LaterOrFirst(cs: seq<Contact>, id: byte)
    ensures id in Ids(cs) <==> cs != [] && (id in Ids(cs[1..]) || id == cs[0].id)
  {
    if cs != [] {
      assert cs == [cs[0]] + cs[1..];
      if id in Ids(cs[1..]) {
        var c :| c in cs[1..] && c.id == id;
        assert c in cs;
      }
    }
  }

  /** Same single-touch state and button on both panels. */
  predicate SameButton(p: Panel, q: Panel) {
    p.touch == q.touch && p.x == q.x && p.y == q.y && p.pressure == q.pressure
  }

  lemma LiftOne(p: Panel, m: Slots, id: byte, max: nat)
    requires Synced(p, m) && WellPlaced(m, max) && id in m
    ensures var q := Replay(p, [MtSlot(m[id]), MtTracking(-1)]);
            Synced(q, m - {id}) && SameButton(p, q)
  {
    var s := m[id];
    var q := Replay(p, [MtSlot(s), MtTracking(-1)]);
    ReplayFew(p, MtSlot(s), MtTracking(-1), Syn);
    assert q.fingers == p.fingers - {s};
    forall t: nat
      ensures t in q.fingers <==> t in (m - {id}).Values
    {
      if t in (m - {id}).Values {
        var k :| k in m - {id} && m[k] == t;
        assert t in m.Values;
      }
      if t in q.fingers {
        var k :| k in m && m[k] == t;
        assert (m - {id})[k] == t;
      }
    }
  }

  lemma {:induction false} ReplayLift(p: Panel, m: Slots, now: set<byte>, from: nat, max: nat)
    requires from <= 0x100 && WellPlaced(m, max) && Synced(p, Releasing(m, now, from))
    ensures var q := Replay(p, LiftEvents(Lifted(m, now, from)));
            Synced(q, Kept(m, now)) && SameButton(p, q)
    decreases 0x100 - from
  {
    hide Synced, WellPlaced, OnPanel, SameButton;
    if from < 0x100 {
      ReleasingStep(m, now, from, []);
      ReleasingPlaced(m, now, from, max);
      var r := Releasing(m, now, from);
      if from in r && from !in now {
        LiftOne(p, r, from, max);
        var first := [MtSlot(r[from]), MtTracking(-1)];
        var p1 := Replay(p, first);
        ReplayLift(p1, m, now, from + 1, max);
        var rest := Lifted(m, now, from + 1);
        assert ([m[from]] + rest)[1..] == rest;
        ReplayAppend(p, first, LiftEvents(rest));
        SameButtonTrans(p, p1, Replay(p1, LiftEvents(rest)));
      } else {
        assert [] + Lifted(m, now, from + 1) == Lifted(m, now, from + 1);
        ReplayLift(p, m, now, from + 1, max);
      }
    } else {
      ReleasingEnds(m, now, []);
      SameButtonTrans(p, p, p);
    }
  }

  lemma SameButtonTrans(a: Panel, b: Panel, c: Panel)
    ensures SameButton(a, a)
    ensures SameButton(a, b) && SameButton(b, c) ==> SameButton(a, c)
  {
  }

  lemma ReleasingPlaced(m: Slots, now: set<byte>, from: nat, max: nat)
    requires WellPlaced(m, max)
    ensures WellPlaced(Releasing(m, now, from), max)
    ensures from < 0x100 && from in m && from !in now ==> from in Releasing(m, now, from)
  {
  }

  /** One contact with a slot: a new one starts in a free slot, and either way the slot ends
      up holding exactly this contact. */
  lemma ReplayOne(p: Panel, m: Slots, max: nat, c: Contact)
    requires Synced(p, m) && WellPlaced(m, max)
    ensures var one := PlaceOne(m, max, c); var q := Replay(p, AssignEvents(one.1));
            && Synced(q, one.0) && SameButton(p, q)
            && q.fingers == if c.id in one.0 then p.fingers[one.0[c.id] := Full(c)] else p.fingers
  {
    var one := PlaceOne(m, max, c);
    if one.1 != [] {
      var a := one.1[0];
      AssignReplay(p, a);
      assert one.1[1..] == [];
      assert AssignEvents(one.1) == AssignEvent(a) + [] == AssignEvent(a);
      PlaceOneSynced(p, m, max, c);
    }
  }

  lemma AssignReplay(p: Panel, a: Assign)
    requires p.ok && (a.isNew <==> a.slot !in p.fingers)
    requires !a.isNew ==> p.fingers[a.slot].id == a.c.id
    ensures var q := Replay(p, AssignEvent(a));
            q.ok && SameButton(p, q) && q.fingers == p.fingers[a.slot := Full(a.c)]
  {
    var start := [MtSlot(a.slot)] + (if a.isNew then [MtTracking(a.c.id)] else []);
    var coords := [MtX(a.c.x), MtY(a.c.y), MtPressure(a.c.pressure)];
    ReplayAppend(p, start, coords);
    var p1 := OnPanel(p, MtSlot(a.slot));
    var p2 := if a.isNew then OnPanel(p1, MtTracking(a.c.id)) else p1;
    ReplayFew(p, MtSlot(a.slot), MtTracking(a.c.id), Syn);
    assert Replay(p, start) == p2;
    ReplayFew(p2, coords[0], coords[1], coords[2]);
  }

  lemma PlaceOneSynced(p: Panel, m: Slots, max: nat, c: Contact)
    requires Synced(p, m) && WellPlaced(m, max) && c.id in PlaceOne(m, max, c).0
    ensures var now := PlaceOne(m, max, c).0;
            var fingers := p.fingers[now[c.id] := Full(c)];
            && (forall s: nat :: s in fingers <==> s in now.Values)
            && (forall id :: id in now ==> now[id] in fingers && fingers[now[id]].id == id)
  {
    PlaceOneIsPlaced(m, max, c);
    PlaceOneKeeps(m, max, c);
    hide PlaceOne, FreeSlot;
    var now := PlaceOne(m, max, c).0;
    assert now[c.id] in now.Values;
  }

  /** On panel q, reached from p, ids with a slot in r show their last report from cs, and ids
      of m that cs does not mention show what they showed before. */
  ghost predicate Shows(p: Panel, m: Slots, q: Panel, r: Slots, cs: seq<Contact>) {
    forall id :: id in r ==>
      && (id in Ids(cs) ==> r[id] in q.fingers && q.fingers[r[id]] == Full(Last(cs, id)))
      && (id !in Ids(cs) ==> id in m && r[id] == m[id] && m[id] in p.fingers && m[id] in q.fingers
                             && q.fingers[m[id]] == p.fingers[m[id]])
  }

  lemma ShowsStep(p: Panel, m: Slots, max: nat, p1: Panel, q: Panel, r: Slots, cs: seq<Contact>)
    requires cs != [] && Synced(p, m) && WellPlaced(m, max)
    requires var one := PlaceOne(m, max, cs[0]).0;
             && p1.fingers == (if cs[0].id in one then p.fingers[one[cs[0].id] := Full(cs[0])] else p.fingers)
             && WellPlaced(one, max) && Shows(p1, one, q, r, cs[1..])
             && (forall id :: id in m ==> id in one && one[id] == m[id])
             && (forall id :: id in one ==> id in m || id == cs[0].id)
    ensures Shows(p, m, q, r, cs)
  {
    hide PlaceOne;
    forall id | id in r
      ensures id in Ids(cs) ==> r[id] in q.fingers && q.fingers[r[id]] == Full(Last(cs, id))
      ensures id !in Ids(cs) ==> id in m && r[id] == m[id] && m[id] in p.fingers && m[id] in q.fingers
                                 && q.fingers[m[id]] == p.fingers[m[id]]
    {
      LaterOrFirst(cs, id);
    }
  }

  /** All contacts in turn: afterwards every id with a slot shows its last report there. */
  lemma {:induction false} ReplayPlace(p: Panel, m: Slots, max: nat, cs: seq<Contact>)
    requires Synced(p, m) && WellPlaced(m, max)
    ensures var r := Place(m, max, cs); var q := Replay(p, AssignEvents(r.1));
            Synced(q, r.0) && SameButton(p, q) && Shows(p, m, q, r.0, cs)
    decreases |cs|
  {
    if cs == [] {
      assert forall id :: id in m ==> m[id] in p.fingers;
    } else {
      hide PlaceOne, OnPanel, AssignEvent, Synced, WellPlaced, Shows;
      var one := PlaceOne(m, max, cs[0]);
      var rest := Place(one.0, max, cs[1..]);
      PlaceOneIsPlaced(m, max, cs[0]);
      PlaceOneKeeps(m, max, cs[0]);
      ReplayOne(p, m, max, cs[0]);
      var p1 := Replay(p, AssignEvents(one.1));
      ReplayPlace(p1, one.0, max, cs[1..]);
      AssignEventsAppend(one.1, rest.1);
      ReplayAppend(p, AssignEvents(one.1), AssignEvents(rest.1));
      ShowsStep(p, m, max, p1, Replay(p1, AssignEvents(rest.1)), rest.0, cs);
    }
  }

  lemma {:induction false} AssignEventsAppend(a: seq<Assign>, b: seq<Assign>)
    ensures AssignEvents(a + b) == AssignEvents(a) + AssignEvents(b)
    decreases |a|
  {
    if a == [] {
      assert a + b == b;
    } else {
      hide AssignEvent;
      AssignEventsAppend(a[1..], b);
      assert (a + b)[1..] == a[1..] + b;
      Assoc(AssignEvent(a[0]), AssignEvents(a[1..]), AssignEvents(b));
    }
  }

  // ----- One whole update --------------------------------------------------

  lemma ReplayButton(p: Panel, contacts: seq<Contact>)
    requires p.ok
    ensures var q := Replay(p, ButtonEvents(contacts, p.touch));
            && q.ok && q.fingers == p.fingers && q.touch == (contacts != [])
            && (contacts != [] ==> q.x == contacts[0].x && q.y == contacts[0].y && q.pressure == contacts[0].pressure)
  {
    var down := contacts != [];
    var button := if down != p.touch then [BtnTouch(down)] else [];
    var coords := if down then [AbsX(contacts[0].x), AbsY(contacts[0].y), AbsPressure(contacts[0].pressure)] else [];
    ReplayAppend(p, button + coords, [Syn]);
    ReplayAppend(p, button, coords);
    var p1 := if down != p.touch then OnPanel(p, BtnTouch(down)) else p;
    ReplayFew(p, BtnTouch(down), Syn, Syn);
    assert Replay(p, button) == p1;
    if down {
      ReplayFew(p1, coords[0], coords[1], coords[2]);
    }
    ReplayFew(Replay(p1, coords), Syn, Syn, Syn);
  }

  /** The delta events refine the full contact set: replayed on a panel in step with the slot
      map, they are all in order and leave one active slot per accepted id, holding that id
      and its last report, with the button down exactly when there are contacts. */
  lemma ReplayUpdate(p: Panel, m: Slots, max: nat, cs: seq<Contact>)
    requires Synced(p, m) && WellPlaced(m, max)
    ensures var kept := Kept(m, Ids(cs)); var r := Place(kept, max, cs);
            var q := Replay(p, TouchEvents(SlotUpdate(r.1, Lifted(m, Ids(cs), 0)), cs, p.touch));
            && Synced(q, r.0) && q.touch == (cs != [])
            && (cs != [] ==> q.x == cs[0].x && q.y == cs[0].y && q.pressure == cs[0].pressure)
            && (forall id :: id in r.0 ==> id in Ids(cs) && q.fingers[r.0[id]] == Full(Last(cs, id)))
  {
    hide OnPanel, Replay, Place, Kept, Lifted, Synced, SameButton, Shows, WellPlaced, LiftEvents,
         AssignEvents, ButtonEvents, Last;
    var now := Ids(cs);
    var kept := Kept(m, now);
    var r := Place(kept, max, cs);
    var lift, assign := LiftEvents(Lifted(m, now, 0)), AssignEvents(r.1);
    var button := ButtonEvents(cs, p.touch);
    ReleasingStarts(m, now);
    ReplayLift(p, m, now, 0, max);
    KeptIsPlaced(m, now, max);
    var p1 := Replay(p, lift);
    ReplayPlace(p1, kept, max, cs);
    var p2 := Replay(p1, assign);
    SameButtonTrans(p, p1, p2);
    ButtonOf(p, p2);
    AllShown(p1, m, p2, r.0, cs);
    SyncedByFingers(p2, Replay(p2, button), r.0);
    ReplayButton(p2, cs);
    ReplayAppend(p, lift + assign, button);
    ReplayAppend(p, lift, assign);
  }

  lemma AllShown(p: Panel, m: Slots, q: Panel, r: Slots, cs: seq<Contact>)
    requires Shows(p, Kept(m, Ids(cs)), q, r, cs)
    ensures forall id :: id in r ==> id in Ids(cs) && r[id] in q.fingers && q.fingers[r[id]] == Full(Last(cs, id))
  {
    hide Last;
  }

  lemma SyncedByFingers(p: Panel, q: Panel, m: Slots)
    requires Synced(p, m)
    ensures p.ok
    ensures q.ok && q.fingers == p.fingers ==> Synced(q, m)
  {
  }

  lemma ButtonOf(p: Panel, q: Panel)
    ensures SameButton(p, q) ==> p.touch == q.touch
  {
  }
}

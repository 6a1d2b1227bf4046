/** host/src/input_injector.cpp: touch, pen and the synthesized right click as event logs on
    the virtual devices. */
module Injector {
  import opened Bytes
  import opened TouchSlots
  import opened Evdev
  import opened TouchReplay
  import opened TapGesture

  /** The monitor's rectangle inside the desktop, once known. */
  datatype Geometry = Geometry(outX: int, outY: int, outW: int, outH: int, deskW: int, deskH: int)

  const NO_GEOMETRY: Geometry := Geometry(0, 0, 0, 0, 0, 0)

  function Clamp(v: int, hi: int): int {
    if v < 0 then 0 else if v > hi then hi else v
  }

  /** Integer division of the C++ source: toward zero. */
  function Quotient(a: int, b: int): int
    requires b > 0
  {
    if a >= 0 then a / b else -(-a / b)
  }

  /** A 0..65535 position on the monitor, in desktop pixels, along one axis. */
  function Scale(start: int, size: int, desk: int, v: u16): int {
    Clamp(start + Quotient(v * size, 65535), desk - 1)
  }

  function ScaleX(g: Geometry, x: u16): int {
    Scale(g.outX, g.outW, g.deskW, x)
  }

  function ScaleY(g: Geometry, y: u16): int {
    Scale(g.outY, g.outH, g.deskH, y)
  }

  lemma TimesGrows(a: int, b: int, c: nat)
    requires a <= b
    ensures a * c <= b * c
  {
  }

  lemma DivGrows(a: nat, b: nat, k: nat)
    requires a <= b && k > 0
    ensures a / k <= b / k
  {
    var q := b / k;
    assert b < (q + 1) * k;
    if a / k > q { TimesGrows(q + 1, a / k, k); }
  }

  /** A click is always on the desktop, and further along the monitor is further along the
      desktop. */
  lemma ScaleOrder(start: int, size: nat, desk: int, v: u16, w: u16)
    requires desk > 0 && v <= w
    ensures 0 <= Scale(start, size, desk, v) <= Scale(start, size, desk, w) < desk
  {
    TimesGrows(v, w, size);
    DivGrows(v * size, w * size, 65535);
  }

  /** For a monitor inside the desktop, a click starts at the monitor's first pixel and is on the
      monitor, except at the far end of the range: 65535 is the first pixel after the monitor,
      unless the desktop ends there. */
  lemma ClickOnMonitor(start: nat, size: nat, desk: int, v: u16)
    requires size > 0 && start + size <= desk
    ensures start <= Scale(start, size, desk, v)
    ensures Scale(start, size, desk, 0) == start
    ensures Scale(start, size, desk, 65535) == if start + size == desk then desk - 1 else start + size
    ensures Scale(start, size, desk, v) < start + size <==> v < 65535 || start + size == desk
  {
    FarEnd(size, v);
    FarEnd(size, 65535);
    FarEnd(size, 0);
  }

  lemma FarEnd(size: nat, v: u16)
    requires size > 0
    ensures 0 <= v * size / 65535 <= size
    ensures v * size / 65535 < size <==> v < 65535
    ensures v == 0 ==> v * size / 65535 == 0
  {
    TimesGrows(v, 65535, size);
    if v < 65535 { TimesGrows(v, 65534, size); }
  }

  function ClickEvents(g: Geometry, x: u16, y: u16): seq<Event> {
    [AbsX(ScaleX(g, x)), AbsY(ScaleY(g, y)), Syn, BtnRight(true), Syn, BtnRight(false), Syn]
  }

  function TapEvents(hasPointer: bool, g: Geometry, tap: Tap): seq<Event> {
    match tap
    case NoTap => []
    case RightClick(x, y) =>
      if !hasPointer || g.outW <= 0 || g.outH <= 0 then [] else ClickEvents(g, x, y)
  }

  /** q is the last pixel at or before v 65535ths of a side of `size` pixels that begins at start. */
  predicate Reaches(start: int, size: int, v: u16, q: int) {
    (q - start) * 65535 <= v * size < (q + 1 - start) * 65535
  }

  /** p is that pixel, moved onto a desktop of `desk` pixels if it is off it. */
  ghost predicate Placed(start: int, size: int, desk: int, v: u16, p: int) {
    exists q: int :: Reaches(start, size, v, q) && p == if q < 0 then 0 else if q > desk - 1 then desk - 1 else q
  }

  /** On a desktop that has pixels, Scale is the only place there is. */
  lemma ScalePlaces(start: int, size: nat, desk: int, v: u16)
    requires desk > 0
    ensures Placed(start, size, desk, v, Scale(start, size, desk, v))
    ensures forall p: int :: Placed(start, size, desk, v, p) ==> p == Scale(start, size, desk, v)
  {
    var x := v * size;
    TimesGrows(0, v, size);
    var q := start + x / 65535;
    assert Reaches(start, size, v, q);
  }

  /** Where a tap clicks, if anywhere: across by the horizontal fields, down by the vertical ones. */
  function Clicks(hasPointer: bool, g: Geometry, tap: Tap): (r: seq<(int, int)>)
    ensures |r| == if tap.RightClick? && hasPointer && g.outW > 0 && g.outH > 0 then 1 else 0
    ensures r != [] && g.deskW > 0 && g.deskH > 0 ==>
              Placed(g.outX, g.outW, g.deskW, tap.x, r[0].0) && Placed(g.outY, g.outH, g.deskH, tap.y, r[0].1)
  {
    match tap
    case NoTap => []
    case RightClick(x, y) =>
      if !hasPointer || g.outW <= 0 || g.outH <= 0 then []
      else
        assert g.deskW > 0 ==> Placed(g.outX, g.outW, g.deskW, x, ScaleX(g, x)) by {
          if g.deskW > 0 { ScalePlaces(g.outX, g.outW, g.deskW, x); }
        }
        assert g.deskH > 0 ==> Placed(g.outY, g.outH, g.deskH, y, ScaleY(g, y)) by {
          if g.deskH > 0 { ScalePlaces(g.outY, g.outH, g.deskH, y); }
        }
        [(ScaleX(g, x), ScaleY(g, y))]
  }

  /** A monitor to the right of another: the middle of it, a height of its own. */
  lemma MiddleOfSecondMonitor()
    ensures Clicks(true, Geometry(1920, 0, 1920, 1080, 3840, 1080), RightClick(32768, 32768)) == [(2880, 540)]
  {
  }

  /** The eraser end is the rubber tool, the other end the pen. */
  lemma EraserIsRubber(t: Tablet, x: u16, y: u16, pressure: u16)
    requires t.ok && t.tool == NoTool
    ensures ReplayPen(t, PenEvents(false, false, x, y, pressure, true, true)).tool == Rubber
    ensures ReplayPen(t, PenEvents(false, true, x, y, pressure, true, false)).tool == Pen
  {
    ReplaySample(t, false, false, x, y, pressure, true, true);
    ReplaySample(t, false, true, x, y, pressure, true, false);
  }

  /** Replayed on a pointer at rest, the events of a tap press and release the button once, at
      the place of the tap, or do nothing. */
  lemma ReplayTap(m: Mouse, hasPointer: bool, g: Geometry, tap: Tap)
    requires m.ok && !m.right
    ensures var now := ReplayMouse(m, TapEvents(hasPointer, g, tap));
            now.ok && !now.right && now.clicks == m.clicks + Clicks(hasPointer, g, tap)
  {
    hide ScaleX, ScaleY, ReplayMouse;
    if Clicks(hasPointer, g, tap) != [] {
      var px, py := ScaleX(g, tap.x), ScaleY(g, tap.y);
      ReplayClick(m, px, py);
    } else {
      NoEvents(m);
    }
  }

  lemma NoEvents(m: Mouse)
    ensures ReplayMouse(m, []) == m && m.clicks + [] == m.clicks
  {
  }

  lemma ReplayClick(m: Mouse, px: int, py: int)
    requires m.ok && !m.right
    ensures ReplayMouse(m, [AbsX(px), AbsY(py), Syn, BtnRight(true), Syn, BtnRight(false), Syn]) ==
            m.(x := px, y := py, clicks := m.clicks + [(px, py)])
  {
    hide ReplayMouse;
    var m2 := m.(x := px, y := py);
    var m3 := m2.(right := true);
    var m4 := m2.(clicks := m.clicks + [(px, py)]);
    var s6 := [Syn];
    var s5 := [BtnRight(false)] + s6;
    var s4 := [Syn] + s5;
    var s3 := [BtnRight(true)] + s4;
    var s2 := [Syn] + s3;
    var s1 := [AbsY(py)] + s2;
    assert [AbsX(px), AbsY(py), Syn, BtnRight(true), Syn, BtnRight(false), Syn] == [AbsX(px)] + s1;
    MouseStep(m, AbsX(px), s1);
    MouseStep(m.(x := px), AbsY(py), s2);
    MouseStep(m2, Syn, s3);
    MouseStep(m2, BtnRight(true), s4);
    MouseStep(m3, Syn, s5);
    MouseStep(m3, BtnRight(false), s6);
    assert s6 == [Syn] + [];
    MouseStep(m4, Syn, []);
    NoEvents(m4);
  }

  /** The pen tool in use, as the tablet should see it. */
  function ToolInUse(down: bool, eraser: bool): Tool {
    if !down then NoTool else if eraser then Rubber else Pen
  }

  function ToolEvent(eraser: bool, down: bool): Event {
    if eraser then ToolRubber(down) else ToolPen(down)
  }

  function PenEvents(wasDown: bool, wasEraser: bool, x: u16, y: u16, pressure: u16,
                     touching: bool, eraser: bool): seq<Event>
  {
    (if touching && !wasDown then [ToolEvent(eraser, true)] else [])
    + [AbsX(x), AbsY(y), AbsPressure(pressure), BtnTouch(touching), Syn]
    + (if !touching && wasDown then [ToolEvent(wasEraser, false), Syn] else [])
  }

  /** A sample is reported as one; the tool leaves after it, in a report of its own. */
  lemma PenReports(wasDown: bool, wasEraser: bool, x: u16, y: u16, pressure: u16, touching: bool, eraser: bool)
    ensures var es := PenEvents(wasDown, wasEraser, x, y, pressure, touching, eraser);
            var n := if touching && !wasDown then 5 else 4;
            && es[n] == Syn && (forall i | 0 <= i < n :: es[i] != Syn)
            && es[n + 1..] == if !touching && wasDown then [ToolEvent(wasEraser, false), Syn] else []
  {
  }

  /** The pointer is moved in one report, pressed in the next and released in a third. */
  lemma ClickReports(g: Geometry, x: u16, y: u16, hasPointer: bool)
    requires g.outW > 0 && g.outH > 0 && hasPointer
    ensures var es := TapEvents(hasPointer, g, RightClick(x, y));
            && |es| == 7 && es[2] == es[4] == es[6] == Syn && es[0].AbsX? && es[1].AbsY?
            && es[3] == BtnRight(true) && es[5] == BtnRight(false)
  {
  }

  /** After an update the slot map holds as many of the distinct ids as fit, no others, and has
      moved none that stayed down. */
  ghost predicate Holds(before: Slots, now: Slots, cs: seq<Contact>, max: nat) {
    && now.Keys <= Ids(cs)
    && |now| == (if |Ids(cs)| <= max then |Ids(cs)| else max)
    && (forall id :: id in before && id in Ids(cs) ==> id in now && now[id] == before[id])
  }

  /** The panel shows exactly the contacts held, each at its last report, with the touch button
      down exactly when there are contacts and the first of them as the single-touch pointer. */
  ghost predicate Shown(p: Panel, m: Slots, cs: seq<Contact>) {
    && p.ok
    && (forall s: nat :: s in p.fingers <==> s in m.Values)
    && (forall id :: id in m ==> id in Ids(cs) && m[id] in p.fingers && p.fingers[m[id]] == Full(Last(cs, id)))
    && p.touch == (cs != [])
    && (cs != [] ==> p.x == cs[0].x && p.y == cs[0].y && p.pressure == cs[0].pressure)
  }

  lemma UpdateShown(p: Panel, m: Slots, max: nat, cs: seq<Contact>)
    requires Synced(p, m) && WellPlaced(m, max) && max > 0
    ensures var r := Place(Kept(m, Ids(cs)), max, cs);
            var q := Replay(p, TouchEvents(SlotUpdate(r.1, Lifted(m, Ids(cs), 0)), cs, p.touch));
            && Synced(q, r.0) && Shown(q, r.0, cs) && Holds(m, r.0, cs, max)
            && q.touch == (cs != []) && (cs != [] <==> r.0 != map[])
  {
    hide Replay, Place, Lifted, TouchEvents, Kept, WellPlaced;
    ReplayUpdate(p, m, max, cs);
    HeldContacts(m, max, cs);
    SomeHeld(cs, Place(Kept(m, Ids(cs)), max, cs).0, max);
  }

  class InputInjector {
    const slots: MtSlots
    const tap: TwoFingerTap
    var hasPointer: bool  // created once the desktop bounds are known
    var geometry: Geometry
    var anyDown: bool
    var penDown: bool
    var penEraser: bool
    // Everything written to each virtual device.
    var touchLog: seq<Event>
    var penLog: seq<Event>
    var clickLog: seq<Event>

    /** The devices are in step with what the injector believes about them. */
    ghost predicate Valid()
      reads this, slots, tap
    {
      && slots.Valid() && slots.maxSlots > 0 && tap.Valid()
      && Synced(TouchPanel(), slots.idSlot)
      && TouchPanel().touch == anyDown
      && (anyDown <==> slots.idSlot != map[])
      && PenTablet().ok && PenTablet().touch == penDown
      && PenTablet().tool == ToolInUse(penDown, penEraser)
      && Pointer().ok && !Pointer().right
    }

    ghost function Pointer(): Mouse
      reads this
    {
      ReplayMouse(FRESH_MOUSE, clickLog)
    }

    ghost function TouchPanel(): Panel
      reads this
    {
      Replay(FRESH_PANEL, touchLog)
    }

    ghost function PenTablet(): Tablet
      reads this
    {
      ReplayPen(FRESH_TABLET, penLog)
    }

    constructor (maxSlots: nat)
      requires maxSlots > 0
      ensures Valid() && fresh(slots) && fresh(tap) && slots.maxSlots == maxSlots
      ensures touchLog == penLog == clickLog == [] && !hasPointer && tap.history == [] && slots.idSlot == map[]
      ensures !penDown && !penEraser && geometry == Geometry(0, 0, 0, 0, 0, 0)
    {
      slots := new MtSlots(maxSlots);
      tap := new TwoFingerTap();
      hasPointer, geometry := false, NO_GEOMETRY;
      anyDown, penDown, penEraser := false, false, false;
      touchLog, penLog, clickLog := [], [], [];
    }

    method SetGeometry(g: Geometry)
      requires Valid()
      modifies this`hasPointer, this`geometry
      ensures Valid() && geometry == g
      ensures hasPointer == (old(hasPointer) || (g.deskW > 0 && g.deskH > 0))
    {
      geometry := g;
      if hasPointer || g.deskW <= 0 || g.deskH <= 0 { return; }
      hasPointer := true;
    }

    /** One touch update: the full contact set in, the differences out. A finished two-finger
        tap clicks; nothing else does. */
    method Inject(contacts: seq<Contact>, nowMs: int)
      requires Valid()
      modifies this`anyDown, this`touchLog, this`clickLog, slots, tap
      ensures Valid() && anyDown == (contacts != [])
      ensures Holds(old(slots.idSlot), slots.idSlot, contacts, slots.maxSlots)
      ensures Shown(TouchPanel(), slots.idSlot, contacts)
      ensures old(touchLog) <= touchLog
      ensures tap.history == old(tap.history) + [Sample(contacts, nowMs)]
      ensures clickLog == old(clickLog) +
                TapEvents(hasPointer, geometry, if contacts == [] then Verdict(old(tap.history), nowMs) else NoTap)
      ensures Pointer().clicks == old(Pointer().clicks) +
                Clicks(hasPointer, geometry, if contacts == [] then Verdict(old(tap.history), nowMs) else NoTap)
    {
      hide ReplayMouse, TapEvents, Clicks, Replay, ReplayPen, Synced, Holds, Shown, Verdict;
      InjectTouch(contacts);
      var t := tap.Update(contacts, nowMs);
      NoTapNoClick(hasPointer, geometry);
      if t.RightClick? {
        RightClickAt(t.x, t.y);
      } else {
        assert clickLog + [] == clickLog;
        assert Pointer().clicks + [] == Pointer().clicks;
      }
    }

    method InjectTouch(contacts: seq<Contact>)
      requires Valid()
      modifies this`anyDown, this`touchLog, slots
      ensures Valid() && anyDown == (contacts != [])
      ensures Holds(old(slots.idSlot), slots.idSlot, contacts, slots.maxSlots)
      ensures Shown(TouchPanel(), slots.idSlot, contacts)
      ensures old(touchLog) <= touchLog
    {
      hide ReplayMouse, Replay, ReplayPen, Synced, Place, Lifted, TouchEvents, Kept, Holds, Shown, ToolInUse, WellPlaced;
      ghost var panel, before := TouchPanel(), slots.idSlot;
      UpdateShown(panel, before, slots.maxSlots, contacts);
      var u := slots.Update(contacts);
      var events := EventsOf(u, contacts, anyDown);
      ReplayAppend(FRESH_PANEL, touchLog, events);
      touchLog := touchLog + events;
      anyDown := contacts != [];
    }

    /** The emission loops. */
    method EventsOf(u: SlotUpdate, contacts: seq<Contact>, wasDown: bool) returns (events: seq<Event>)
      ensures events == TouchEvents(u, contacts, wasDown)
    {
      events := [];
      for i := 0 to |u.lifted|
        invariant events + LiftEvents(u.lifted[i..]) == LiftEvents(u.lifted)
      {
        assert u.lifted[i..][1..] == u.lifted[i + 1..];
        Assoc(events, [MtSlot(u.lifted[i]), MtTracking(-1)], LiftEvents(u.lifted[i + 1..]));
        events := events + [MtSlot(u.lifted[i]), MtTracking(-1)];
      }
      assert events + [] == events;
      ghost var lift := events;
      for i := 0 to |u.active|
        invariant events + AssignEvents(u.active[i..]) == lift + AssignEvents(u.active)
      {
        var a := u.active[i];
        assert u.active[i..][1..] == u.active[i + 1..];
        Assoc(events, AssignEvent(a), AssignEvents(u.active[i + 1..]));
        events := events + AssignEvent(a);
      }
      assert events + [] == events;
      events := events + ButtonEvents(contacts, wasDown);
    }

    /** Presses and releases the right button once, where the tap was, if there is a pointer
        device and a monitor to click on. */
    method RightClickAt(x: u16, y: u16)
      requires Pointer().ok && !Pointer().right
      modifies this`clickLog
      ensures clickLog == old(clickLog) + TapEvents(hasPointer, geometry, RightClick(x, y))
      ensures Pointer().ok && !Pointer().right
      ensures Pointer().clicks == old(Pointer().clicks) + Clicks(hasPointer, geometry, RightClick(x, y))
    {
      hide ReplayMouse, Clicks, ScaleX, ScaleY;
      ReplayMouseAppend(FRESH_MOUSE, clickLog, TapEvents(hasPointer, geometry, RightClick(x, y)));
      ReplayTap(Pointer(), hasPointer, geometry, RightClick(x, y));
      if !hasPointer || geometry.outW <= 0 || geometry.outH <= 0 {
        assert clickLog + [] == clickLog;
        return;
      }
      clickLog := clickLog + ClickEvents(geometry, x, y);
    }

    /** One stylus sample: the tool enters on the down edge and leaves on the up edge. */
    method StylusSample(x: u16, y: u16, pressure: u16, touching: bool, eraser: bool)
      requires Valid()
      modifies this`penDown, this`penEraser, this`penLog
      ensures Valid() && penDown == touching
      ensures penEraser == (if touching && !old(penDown) then eraser else old(penEraser))
      ensures PenTablet() == Tablet(true, ToolInUse(touching, penEraser), touching, x, y, pressure)
      ensures penLog == old(penLog) + PenEvents(old(penDown), old(penEraser), x, y, pressure, touching, eraser)
    {
      hide ReplayMouse, Replay, ReplayPen, Synced;
      ghost var was := PenTablet();
      ghost var all := PenEvents(penDown, penEraser, x, y, pressure, touching, eraser);
      ReplayPenAppend(FRESH_TABLET, penLog, all);
      ReplaySample(was, penDown, penEraser, x, y, pressure, touching, eraser);
      var events := [];
      if touching && !penDown {
        penEraser := eraser;
        events := [ToolEvent(eraser, true)];
        penDown := true;
      }
      events := events + [AbsX(x), AbsY(y), AbsPressure(pressure), BtnTouch(touching), Syn];
      if !touching && penDown {
        events := events + [ToolEvent(penEraser, false), Syn];
        penDown := false;
      }
      assert events == all;
      penLog := penLog + events;
    }

    /** The destructor: whatever is still held is released before the devices vanish. */
    method Destroy()
      requires Valid()
      modifies this`anyDown, this`penDown, this`touchLog, this`penLog, slots
      ensures TouchPanel().ok && TouchPanel().fingers == map[] && !TouchPanel().touch
      ensures Pointer().ok && !Pointer().right
      ensures PenTablet().ok && PenTablet().tool == NoTool && !PenTablet().touch
      ensures old(touchLog) <= touchLog && old(penLog) <= penLog
      // The releases are reported.
      ensures touchLog != [] && touchLog[|touchLog| - 1] == Syn
      ensures penLog != old(penLog) ==> penLog[|penLog| - 1] == Syn
    {
      hide ReplayMouse, Replay, ReplayPen, Synced, Place, Lifted, TouchEvents, Kept, WellPlaced;
      ghost var panel, before := TouchPanel(), slots.idSlot;
      UpdateShown(panel, before, slots.maxSlots, []);
      NothingPlaced(before, slots.maxSlots);
      var u := slots.Update([]);
      OneReport(u, [], anyDown);
      var events := EventsOf(u, [], anyDown);
      ReplayAppend(FRESH_PANEL, touchLog, events);
      SyncedFingers(Replay(panel, events), slots.idSlot);
      touchLog := touchLog + events;
      anyDown := false;
      if penDown {
        ghost var was := PenTablet();
        ReplayRelease(was, penEraser);
        ReplayPenAppend(FRESH_TABLET, penLog, [BtnTouch(false), ToolEvent(penEraser, false), Syn]);
        penLog := penLog + [BtnTouch(false), ToolEvent(penEraser, false), Syn];
        penDown := false;
      }
    }
  }

  lemma NoTapNoClick(hasPointer: bool, g: Geometry)
    ensures TapEvents(hasPointer, g, NoTap) == [] && Clicks(hasPointer, g, NoTap) == []
  {
  }

  lemma SyncedFingers(p: Panel, m: Slots)
    requires Synced(p, m)
    ensures p.ok && forall s: nat :: s in p.fingers <==> s in m.Values
    ensures m == map[] ==> p.fingers == map[]
  {
    if m == map[] { assert m.Values == {}; }
  }

  lemma NothingPlaced(before: Slots, max: nat)
    ensures Place(Kept(before, Ids([])), max, []) == (map[], [])
  {
    assert Kept(before, Ids([])) == map[];
  }

  lemma SomeHeld(contacts: seq<Contact>, m: Slots, max: nat)
    requires max > 0 && |m| == (if |Ids(contacts)| <= max then |Ids(contacts)| else max)
    ensures contacts != [] <==> m != map[]
  {
    if contacts != [] {
      assert contacts[0].id in Ids(contacts);
    }
  }

  lemma ReplayPenFew(t: Tablet, e: Event, f: Event, g: Event)
    ensures ReplayPen(t, [e]) == OnTablet(t, e)
    ensures ReplayPen(t, [e, f]) == OnTablet(OnTablet(t, e), f)
    ensures ReplayPen(t, [e, f, g]) == OnTablet(OnTablet(OnTablet(t, e), f), g)
  {
    hide OnTablet;
    assert [e][1..] == [] && [e, f][1..] == [f] && [f][1..] == [];
    assert [e, f, g][1..] == [f, g] && [f, g][1..] == [g] && [g][1..] == [];
    var t1 := OnTablet(t, e);
    assert ReplayPen(t1, [f]) == OnTablet(t1, f);
    assert ReplayPen(OnTablet(t1, f), [g]) == OnTablet(OnTablet(t1, f), g);
  }

  /** One sample on a tablet in step: tools enter and leave properly, and the same one leaves
      that entered. */
  lemma ReplaySample(t: Tablet, wasDown: bool, wasEraser: bool, x: u16, y: u16, pressure: u16,
                     touching: bool, eraser: bool)
    requires t.ok && t.tool == ToolInUse(wasDown, wasEraser)
    ensures var tool := if touching && !wasDown then eraser else wasEraser;
            ReplayPen(t, PenEvents(wasDown, wasEraser, x, y, pressure, touching, eraser)) ==
            Tablet(true, ToolInUse(touching, tool), touching, x, y, pressure)
  {
    var enter := if touching && !wasDown then [ToolEvent(eraser, true)] else [];
    var leave := if !touching && wasDown then [ToolEvent(wasEraser, false), Syn] else [];
    var mid := [AbsX(x), AbsY(y), AbsPressure(pressure), BtnTouch(touching), Syn];
    ReplayPenAppend(t, enter + mid, leave);
    ReplayPenAppend(t, enter, mid);
    ReplayPenFew(t, ToolEvent(eraser, true), Syn, Syn);
    var t1 := ReplayPen(t, enter);
    ReplayMiddle(t1, x, y, pressure, touching);
    ReplayPenFew(ReplayPen(t1, mid), ToolEvent(wasEraser, false), Syn, Syn);
  }

  lemma ReplayMiddle(t: Tablet, x: u16, y: u16, pressure: u16, touching: bool)
    ensures ReplayPen(t, [AbsX(x), AbsY(y), AbsPressure(pressure), BtnTouch(touching), Syn]) ==
            t.(x := x, y := y, pressure := pressure, touch := touching)
  {
    var a, b := [AbsX(x), AbsY(y), AbsPressure(pressure)], [BtnTouch(touching), Syn];
    assert a + b == [AbsX(x), AbsY(y), AbsPressure(pressure), BtnTouch(touching), Syn];
    ReplayPenAppend(t, a, b);
    ReplayPenFew(t, AbsX(x), AbsY(y), AbsPressure(pressure));
    ReplayPenFew(ReplayPen(t, a), BtnTouch(touching), Syn, Syn);
  }

  lemma ReplayRelease(t: Tablet, eraser: bool)
    requires t.ok && t.tool == ToolInUse(true, eraser)
    ensures ReplayPen(t, [BtnTouch(false), ToolEvent(eraser, false), Syn]) == t.(touch := false, tool := NoTool)
  {
    ReplayPenFew(t, BtnTouch(false), ToolEvent(eraser, false), Syn);
  }

  // ----- Whole sessions ----------------------------------------------------

  datatype Input =
    | Touches(contacts: seq<Contact>, ms: int)
    | Stylus(x: u16, y: u16, pressure: u16, touching: bool, eraser: bool)
    | Moved(g: Geometry)

  // What a session says, up to any point of it.

  /** The touch updates. */
  function TouchesOf(inputs: seq<Input>): seq<Sample> {
    if inputs == [] then []
    else
      var e := inputs[|inputs| - 1];
      TouchesOf(inputs[..|inputs| - 1]) + if e.Touches? then [Sample(e.contacts, e.ms)] else []
  }

  /** Whether the pen is down, and whether it went down as an eraser. */
  function PenAfter(inputs: seq<Input>): (bool, bool) {
    if inputs == [] then (false, false)
    else
      var e, was := inputs[|inputs| - 1], PenAfter(inputs[..|inputs| - 1]);
      if e.Stylus? then (e.touching, if e.touching && !was.0 then e.eraser else was.1) else was
  }

  /** Whether there is a pointer device, and the latest geometry. */
  function PointerAfter(inputs: seq<Input>): (bool, Geometry) {
    if inputs == [] then (false, NO_GEOMETRY)
    else
      var e, was := inputs[|inputs| - 1], PointerAfter(inputs[..|inputs| - 1]);
      if e.Moved? then (was.0 || (e.g.deskW > 0 && e.g.deskH > 0), e.g) else was
  }

  /** Where the two-finger taps click. */
  function ClicksOf(inputs: seq<Input>): seq<(int, int)> {
    if inputs == [] then []
    else
      var e, before := inputs[|inputs| - 1], inputs[..|inputs| - 1];
      ClicksOf(before) +
      if e.Touches? && e.contacts == [] then
        Clicks(PointerAfter(before).0, PointerAfter(before).1, Verdict(TouchesOf(before), e.ms))
      else []
  }

  /** The logs and the slot map after an input. */
  datatype Moment = Moment(touch: seq<Event>, pen: seq<Event>, slots: Slots)

  function Before(moments: seq<Moment>, k: nat): Moment
    requires k <= |moments|
  {
    if k == 0 then Moment([], [], map[]) else moments[k - 1]
  }

  /** An input was carried out: a touch update leaves the panel showing its contacts, as many as
      there are slots for and none moved; a stylus sample leaves the tablet showing it, with the
      tool it went down with; and no input touches another's device. */
  ghost predicate CarriedOut(e: Input, was: Moment, now: Moment, eraser: bool, max: nat) {
    && was.touch <= now.touch && was.pen <= now.pen
    && match e
       case Touches(cs, _) =>
         Shown(Replay(FRESH_PANEL, now.touch), now.slots, cs) && Holds(was.slots, now.slots, cs, max) &&
         now.pen == was.pen
       case Stylus(x, y, pressure, touching, _) =>
         ReplayPen(FRESH_TABLET, now.pen) == Tablet(true, ToolInUse(touching, eraser), touching, x, y, pressure) &&
         now.touch == was.touch && now.slots == was.slots
       case Moved(_) => now == was
  }

  ghost predicate AllCarriedOut(inputs: seq<Input>, moments: seq<Moment>, max: nat) {
    && |moments| <= |inputs|
    && forall k :: 0 <= k < |moments| ==>
         CarriedOut(inputs[k], Before(moments, k), moments[k], PenAfter(inputs[..k + 1]).1, max)
  }

  /** Any session, ended by the destructor at any point: every input is carried out when it comes,
      exactly the taps click, there is no protocol violation ever, and no finger, button or tool
      is left held. */
  method RunInput(maxSlots: nat, inputs: seq<Input>) returns (inj: InputInjector, ghost moments: seq<Moment>)
    requires maxSlots > 0
    ensures |moments| == |inputs| && AllCarriedOut(inputs, moments, maxSlots)
    ensures Before(moments, |moments|).touch <= inj.touchLog && Before(moments, |moments|).pen <= inj.penLog
    ensures inj.tap.history == TouchesOf(inputs)
    ensures inj.Pointer().clicks == ClicksOf(inputs)
    ensures inj.TouchPanel().ok && inj.TouchPanel().fingers == map[] && !inj.TouchPanel().touch
    ensures inj.PenTablet().ok && inj.PenTablet().tool == NoTool && !inj.PenTablet().touch
    ensures inj.Pointer().ok && !inj.Pointer().right
  {
    hide ReplayMouse, Clicks, Synced, Replay, ReplayPen, Verdict, CarriedOut, AllCarriedOut, Before, TouchesOf, PenAfter,
         PointerAfter, ClicksOf;
    inj := new InputInjector(maxSlots);
    moments := [];
    NoInput(inputs, maxSlots);
    for i := 0 to |inputs|
      invariant inj.Valid() && fresh(inj) && fresh(inj.slots) && fresh(inj.tap) && inj.slots.maxSlots == maxSlots
      invariant |moments| == i && AllCarriedOut(inputs, moments, maxSlots)
      invariant Before(moments, i) == Moment(inj.touchLog, inj.penLog, inj.slots.idSlot)
      invariant inj.tap.history == TouchesOf(inputs[..i]) && inj.Pointer().clicks == ClicksOf(inputs[..i])
      invariant (inj.penDown, inj.penEraser) == PenAfter(inputs[..i])
      invariant (inj.hasPointer, inj.geometry) == PointerAfter(inputs[..i])
    {
      InputMore(inputs, i);
      Carry(inj, inputs[i]);
      MomentMore(inputs, moments, Moment(inj.touchLog, inj.penLog, inj.slots.idSlot), maxSlots);
      moments := moments + [Moment(inj.touchLog, inj.penLog, inj.slots.idSlot)];
    }
    assert inputs[..|inputs|] == inputs;
    inj.Destroy();
  }

  /** Carries out one input. */
  method Carry(inj: InputInjector, e: Input)
    requires inj.Valid()
    modifies inj, inj.slots, inj.tap
    ensures inj.Valid()
    ensures CarriedOut(e, old(Moment(inj.touchLog, inj.penLog, inj.slots.idSlot)),
                       Moment(inj.touchLog, inj.penLog, inj.slots.idSlot), inj.penEraser, inj.slots.maxSlots)
    ensures (inj.penDown, inj.penEraser) ==
              if e.Stylus? then (e.touching, if e.touching && !old(inj.penDown) then e.eraser else old(inj.penEraser))
              else (old(inj.penDown), old(inj.penEraser))
    ensures (inj.hasPointer, inj.geometry) ==
              if e.Moved? then (old(inj.hasPointer) || (e.g.deskW > 0 && e.g.deskH > 0), e.g)
              else (old(inj.hasPointer), old(inj.geometry))
    ensures inj.tap.history == old(inj.tap.history) + if e.Touches? then [Sample(e.contacts, e.ms)] else []
    ensures inj.Pointer().clicks == old(inj.Pointer().clicks) +
              if e.Touches? && e.contacts == [] then
                Clicks(inj.hasPointer, inj.geometry, Verdict(old(inj.tap.history), e.ms))
              else []
  {
    hide ReplayMouse, Clicks, Synced, Replay, ReplayPen, Verdict, TapEvents, PenEvents, Shown, Holds, ToolInUse;
    assert inj.tap.history + [] == inj.tap.history && inj.Pointer().clicks + [] == inj.Pointer().clicks;
    NoTapNoClick(inj.hasPointer, inj.geometry);
    match e {
      case Touches(contacts, ms) => inj.Inject(contacts, ms);
      case Stylus(x, y, pressure, touching, eraser) => inj.StylusSample(x, y, pressure, touching, eraser);
      case Moved(g) => inj.SetGeometry(g);
    }
  }

  lemma NoInput(inputs: seq<Input>, max: nat)
    ensures TouchesOf([]) == [] && ClicksOf([]) == [] && PenAfter([]) == (false, false)
    ensures PointerAfter([]) == (false, NO_GEOMETRY) && ReplayMouse(FRESH_MOUSE, []).clicks == []
    ensures AllCarriedOut(inputs, [], max) && Before([], 0) == Moment([], [], map[])
  {
  }

  lemma InputMore(inputs: seq<Input>, i: nat)
    requires i < |inputs|
    ensures var before, now, e := inputs[..i], inputs[..i + 1], inputs[i];
            && TouchesOf(now) == TouchesOf(before) + (if e.Touches? then [Sample(e.contacts, e.ms)] else [])
            && PenAfter(now) == (if e.Stylus? then (e.touching, if e.touching && !PenAfter(before).0 then e.eraser
                                                                else PenAfter(before).1)
                                 else PenAfter(before))
            && PointerAfter(now) == (if e.Moved? then (PointerAfter(before).0 || (e.g.deskW > 0 && e.g.deskH > 0), e.g)
                                     else PointerAfter(before))
            && ClicksOf(now) == ClicksOf(before) +
                 if e.Touches? && e.contacts == [] then
                   Clicks(PointerAfter(before).0, PointerAfter(before).1, Verdict(TouchesOf(before), e.ms))
                 else []
  {
    hide Clicks, Verdict;
    assert inputs[..i + 1][..i] == inputs[..i];
  }

  lemma MomentMore(inputs: seq<Input>, moments: seq<Moment>, now: Moment, max: nat)
    requires |moments| < |inputs|
    ensures var n := |moments|; var all := moments + [now];
            && Before(all, n + 1) == now
            && (AllCarriedOut(inputs, moments, max) &&
                CarriedOut(inputs[n], Before(moments, n), now, PenAfter(inputs[..n + 1]).1, max) ==>
                AllCarriedOut(inputs, all, max))
  {
    hide CarriedOut, PenAfter;
    var n, all := |moments|, moments + [now];
    if AllCarriedOut(inputs, moments, max) &&
       CarriedOut(inputs[n], Before(moments, n), now, PenAfter(inputs[..n + 1]).1, max) {
      forall k | 0 <= k <= n
        ensures CarriedOut(inputs[k], Before(all, k), all[k], PenAfter(inputs[..k + 1]).1, max)
      {
        assert Before(all, k) == Before(moments, k);
        if k < n { assert all[k] == moments[k]; }
      }
    }
  }
}

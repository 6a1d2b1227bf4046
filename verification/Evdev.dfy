/** The kernel's side of the injected input: a multi-touch panel (Linux multi-touch protocol,
    type B) and a pen tablet, as strict machines that refuse events out of order. */
module Evdev {
  import opened Bytes

  datatype Event =
    | MtSlot(slot: nat)
    | MtTracking(id: int)
    | MtX(v: int)
    | MtY(v: int)
    | MtPressure(v: int)
    | AbsX(v: int)
    | AbsY(v: int)
    | AbsPressure(v: int)
    | BtnTouch(down: bool)
    | ToolPen(down: bool)
    | ToolRubber(down: bool)
    | BtnRight(down: bool)
    | Syn

  /** A contact as the kernel knows it; coordinates are unknown until reported. */
  datatype Finger = Finger(id: int, x: Option<int>, y: Option<int>, pressure: Option<int>)

  /** `ok` falls for good when a contact starts in a busy slot, ends or moves in a free one,
      or the touch button is set to what it already is. */
  datatype Panel = Panel(ok: bool, slot: nat, fingers: map<nat, Finger>, touch: bool,
                         x: int, y: int, pressure: int)

  const FRESH_PANEL := Panel(true, 0, map[], false, 0, 0, 0)

  function OnPanel(p: Panel, e: Event): Panel {
    match e
    case MtSlot(s) => p.(slot := s)
    case MtTracking(id) =>
      if id < 0 then p.(ok := p.ok && p.slot in p.fingers, fingers := p.fingers - {p.slot})
      else p.(ok := p.ok && p.slot !in p.fingers, fingers := p.fingers[p.slot := Finger(id, None, None, None)])
    case MtX(v) => if p.slot in p.fingers then p.(fingers := p.fingers[p.slot := p.fingers[p.slot].(x := Some(v))])
                   else p.(ok := false)
    case MtY(v) => if p.slot in p.fingers then p.(fingers := p.fingers[p.slot := p.fingers[p.slot].(y := Some(v))])
                   else p.(ok := false)
    case MtPressure(v) =>
      if p.slot in p.fingers then p.(fingers := p.fingers[p.slot := p.fingers[p.slot].(pressure := Some(v))])
      else p.(ok := false)
    case AbsX(v) => p.(x := v)
    case AbsY(v) => p.(y := v)
    case AbsPressure(v) => p.(pressure := v)
    case BtnTouch(down) => p.(ok := p.ok && p.touch != down, touch := down)
    case Syn => p
    case _ => p.(ok := false)  // not a panel event
  }

  function Replay(p: Panel, es: seq<Event>): Panel
    decreases |es|
  {
    if es == [] then p else Replay(OnPanel(p, es[0]), es[1..])
  }

  lemma {:induction false} ReplayAppend(p: Panel, a: seq<Event>, b: seq<Event>)
    ensures Replay(p, a + b) == Replay(Replay(p, a), b)
    decreases |a|
  {
    if a == [] {
      assert a + b == b;
    } else {
      hide OnPanel;
      ReplayAppend(OnPanel(p, a[0]), a[1..], b);
      assert (a + b)[1..] == a[1..] + b;
    }
  }

  /** Up to three events, one by one. */
  lemma ReplayFew(p: Panel, e: Event, f: Event, g: Event)
    ensures Replay(p, [e]) == OnPanel(p, e)
    ensures Replay(p, [e, f]) == OnPanel(OnPanel(p, e), f)
    ensures Replay(p, [e, f, g]) == OnPanel(OnPanel(OnPanel(p, e), f), g)
  {
    hide OnPanel;
    assert [e][1..] == [] && [e, f][1..] == [f] && [f][1..] == [];
    assert [e, f, g][1..] == [f, g] && [f, g][1..] == [g] && [g][1..] == [];
    var p1 := OnPanel(p, e);
    assert Replay(p1, [f]) == OnPanel(p1, f);
    assert Replay(OnPanel(p1, f), [g]) == OnPanel(OnPanel(p1, f), g);
  }

  // ----- Pen ---------------------------------------------------------------

  datatype Tool = NoTool | Pen | Rubber

  /** `ok` falls when a tool enters proximity while another is there, or leaves when it is not. */
  datatype Tablet = Tablet(ok: bool, tool: Tool, touch: bool, x: int, y: int, pressure: int)

  const FRESH_TABLET := Tablet(true, NoTool, false, 0, 0, 0)

  function UseTool(t: Tablet, tool: Tool, down: bool): Tablet {
    if down then t.(ok := t.ok && t.tool == NoTool, tool := tool)
    else t.(ok := t.ok && t.tool == tool, tool := NoTool)
  }

  function OnTablet(t: Tablet, e: Event): Tablet {
    match e
    case ToolPen(down) => UseTool(t, Pen, down)
    case ToolRubber(down) => UseTool(t, Rubber, down)
    case AbsX(v) => t.(x := v)
    case AbsY(v) => t.(y := v)
    case AbsPressure(v) => t.(pressure := v)
    case BtnTouch(down) => t.(touch := down)
    case Syn => t
    case _ => t.(ok := false)
  }

  function ReplayPen(t: Tablet, es: seq<Event>): Tablet
    decreases |es|
  {
    if es == [] then t else ReplayPen(OnTablet(t, es[0]), es[1..])
  }

  lemma {:induction false} ReplayPenAppend(t: Tablet, a: seq<Event>, b: seq<Event>)
    ensures ReplayPen(t, a + b) == ReplayPen(ReplayPen(t, a), b)
    decreases |a|
  {
    if a == [] {
      assert a + b == b;
    } else {
      hide OnTablet;
      ReplayPenAppend(OnTablet(t, a[0]), a[1..], b);
      assert (a + b)[1..] == a[1..] + b;
    }
  }

  // ----- Pointer -----------------------------------------------------------

  /** `ok` falls when the right button is set to what it already is. A click counts where the
      pointer is when the button goes up again. */
  datatype Mouse = Mouse(ok: bool, x: int, y: int, right: bool, clicks: seq<(int, int)>)

  const FRESH_MOUSE := Mouse(true, 0, 0, false, [])

  function OnMouse(m: Mouse, e: Event): Mouse {
    match e
    case AbsX(v) => m.(x := v)
    case AbsY(v) => m.(y := v)
    case BtnRight(down) =>
      m.(ok := m.ok && m.right != down, right := down, clicks := if down then m.clicks else m.clicks + [(m.x, m.y)])
    case Syn => m
    case _ => m.(ok := false)
  }

  function ReplayMouse(m: Mouse, es: seq<Event>): Mouse
    decreases |es|
  {
    if es == [] then m else ReplayMouse(OnMouse(m, es[0]), es[1..])
  }

  lemma {:induction false} ReplayMouseAppend(m: Mouse, a: seq<Event>, b: seq<Event>)
    ensures ReplayMouse(m, a + b) == ReplayMouse(ReplayMouse(m, a), b)
    decreases |a|
  {
    if a == [] {
      assert a + b == b;
    } else {
      hide OnMouse;
      ReplayMouseAppend(OnMouse(m, a[0]), a[1..], b);
      assert (a + b)[1..] == a[1..] + b;
    }
  }

  lemma MouseStep(m: Mouse, e: Event, rest: seq<Event>)
    ensures ReplayMouse(m, [e] + rest) == ReplayMouse(OnMouse(m, e), rest)
  {
    assert ([e] + rest)[1..] == rest;
  }

  // ----- What the machines refuse ------------------------------------------

  /** Exactly when an event the injector may send is out of order, and that nothing mends it. */
  lemma PanelRefuses(p: Panel, e: Event)
    ensures OnPanel(p, e).ok <==>
            p.ok &&
            match e
            case MtTracking(id) => if id < 0 then p.slot in p.fingers else p.slot !in p.fingers
            case MtX(_) => p.slot in p.fingers
            case MtY(_) => p.slot in p.fingers
            case MtPressure(_) => p.slot in p.fingers
            case BtnTouch(down) => p.touch == !down
            case MtSlot(_) => true
            case AbsX(_) => true
            case AbsY(_) => true
            case AbsPressure(_) => true
            case Syn => true
            case _ => false
  {
  }

  /** A finger comes, reports and goes, and is one finger throughout. */
  lemma OneFinger(slot: nat, id: nat, x: int, y: int, pressure: int)
    ensures var down := [MtSlot(slot), MtTracking(id), MtX(x), MtY(y), MtPressure(pressure)];
            var p := Replay(FRESH_PANEL, down); var q := Replay(p, [MtTracking(-1)]);
            && p.ok && p.fingers == map[slot := Finger(id, Some(x), Some(y), Some(pressure))]
            && q.ok && q.fingers == map[]
            && !Replay(p, [MtTracking(id)]).ok && !Replay(q, [MtTracking(-1)]).ok
  {
    var a, b := [MtSlot(slot), MtTracking(id)], [MtX(x), MtY(y), MtPressure(pressure)];
    assert a + b == [MtSlot(slot), MtTracking(id), MtX(x), MtY(y), MtPressure(pressure)];
    ReplayAppend(FRESH_PANEL, a, b);
    ReplayFew(FRESH_PANEL, a[0], a[1], Syn);
    var m := Replay(FRESH_PANEL, a);
    ReplayFew(m, b[0], b[1], b[2]);
    var p := Replay(m, b);
    ReplayFew(p, MtTracking(-1), Syn, Syn);
    ReplayFew(p, MtTracking(id), Syn, Syn);
    ReplayFew(Replay(p, [MtTracking(-1)]), MtTracking(-1), Syn, Syn);
  }

  lemma TabletRefuses(t: Tablet, e: Event)
    ensures OnTablet(t, e).ok <==>
            t.ok &&
            match e
            case ToolPen(down) => t.tool == if down then NoTool else Pen
            case ToolRubber(down) => t.tool == if down then NoTool else Rubber
            case AbsX(_) => true
            case AbsY(_) => true
            case AbsPressure(_) => true
            case BtnTouch(_) => true
            case Syn => true
            case _ => false
  {
  }

  /** The button goes down and up by turns, and each time up is one click where the pointer is. */
  lemma MouseClicks(m: Mouse, down: bool)
    ensures OnMouse(m, BtnRight(down)).ok <==> m.ok && m.right == !down
    ensures OnMouse(m, BtnRight(true)).clicks == m.clicks
    ensures OnMouse(m, BtnRight(false)).clicks == m.clicks + [(m.x, m.y)]
  {
  }
}

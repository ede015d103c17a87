/** The engine's state record and the mutators that update it and build the
    payload of the event they report. Each mutator is a transition from the
    old state to the new state and the payload (when it reports one). */
module Tracker {
  import opened Ints
  import opened Events

  /** The shared state behind the engine's state lock. The `f64` aspect
      ratio is not modelled. */
  datatype EngineState = EngineState(
    windowWidth: i64,
    windowHeight: i64,
    mouseX: i64,
    mouseY: i64,
    pressedButtons: set<Button>)
  {
    function MousePosition(): Point { (mouseX, mouseY) }
  }

  /** `EngineState::default()`: zero sizes and position, nothing pressed. */
  function DefaultState(): (s: EngineState)
    ensures s.MousePosition() == (0, 0)
    ensures s.windowWidth == 0 && s.windowHeight == 0
    ensures forall b :: b !in s.pressedButtons
  {
    EngineState(0, 0, 0, 0, {})
  }

  /** `init_window_aspects`: overwrites the window size; reports nothing. */
  function InitWindowAspects(s: EngineState, width: i64, height: i64): (r: EngineState)
    ensures r.windowWidth == width && r.windowHeight == height
    ensures r.MousePosition() == s.MousePosition()
    ensures r.pressedButtons == s.pressedButtons
  {
    s.(windowWidth := width, windowHeight := height)
  }

  /** `init_mouse_position`: overwrites the pointer position; reports nothing. */
  function InitMousePosition(s: EngineState, p: Point): (r: EngineState)
    ensures r.MousePosition() == p
    ensures r.windowWidth == s.windowWidth && r.windowHeight == s.windowHeight
    ensures r.pressedButtons == s.pressedButtons
  {
    s.(mouseX := p.0, mouseY := p.1)
  }

  /** `set_mouse_position`: reports a mouse move from the stored position to
      `cur` and stores `cur`. The delta is computed with wrapping `i64`
      subtraction, so it always leads from `previous` to `current`. */
  function SetMousePosition(s: EngineState, cur: Point): (r: (EngineState, Data))
    ensures r.1.MoveData? && r.1.move.MouseMove?
    ensures r.1.move.previous == s.MousePosition()
    ensures r.1.move.current == cur
    ensures WrapAdd(r.1.move.previous.0, r.1.move.delta.0) == cur.0
    ensures WrapAdd(r.1.move.previous.1, r.1.move.delta.1) == cur.1
    ensures -TWO_63 <= cur.0 - s.mouseX < TWO_63 ==> r.1.move.delta.0 == cur.0 - s.mouseX
    ensures -TWO_63 <= cur.1 - s.mouseY < TWO_63 ==> r.1.move.delta.1 == cur.1 - s.mouseY
    ensures r.0.MousePosition() == cur
    ensures r.0.windowWidth == s.windowWidth && r.0.windowHeight == s.windowHeight
    ensures r.0.pressedButtons == s.pressedButtons
  {
    var previous := s.MousePosition();
    var delta := (WrapSub(cur.0, previous.0), WrapSub(cur.1, previous.1));
    WrapAddSubInverse(previous.0, cur.0);
    WrapAddSubInverse(previous.1, cur.1);
    (s.(mouseX := cur.0, mouseY := cur.1), MoveData(MouseMove(previous, cur, delta)))
  }

  /** `button_pressed`: records `b` as pressed and reports its press. */
  function ButtonPressed(s: EngineState, b: Button): (r: (EngineState, Data))
    ensures r.1 == ButtonData(b, Press)
    ensures b in r.0.pressedButtons
    ensures forall c :: c != b ==> (c in r.0.pressedButtons <==> c in s.pressedButtons)
    ensures r.0.MousePosition() == s.MousePosition()
    ensures r.0.windowWidth == s.windowWidth && r.0.windowHeight == s.windowHeight
  {
    (s.(pressedButtons := s.pressedButtons + {b}), ButtonData(b, Press))
  }

  /** `button_released`: forgets `b` as pressed and reports its release. */
  function ButtonReleased(s: EngineState, b: Button): (r: (EngineState, Data))
    ensures r.1 == ButtonData(b, Release)
    ensures b !in r.0.pressedButtons
    ensures forall c :: c != b ==> (c in r.0.pressedButtons <==> c in s.pressedButtons)
    ensures r.0.MousePosition() == s.MousePosition()
    ensures r.0.windowWidth == s.windowWidth && r.0.windowHeight == s.windowHeight
  {
    (s.(pressedButtons := s.pressedButtons - {b}), ButtonData(b, Release))
  }

  /** Pressing a button that is already down leaves the state as it is; the
      press is still reported. */
  lemma PressIdempotent(s: EngineState, b: Button)
    ensures ButtonPressed(ButtonPressed(s, b).0, b).0 == ButtonPressed(s, b).0
    ensures ButtonPressed(ButtonPressed(s, b).0, b).1 == ButtonData(b, Press)
  {
    assert ButtonPressed(s, b).0.pressedButtons + {b} == ButtonPressed(s, b).0.pressedButtons;
  }

  /** A press followed by a release of the same button restores the state it
      started from when the button was up; releasing an up button changes nothing. */
  lemma PressThenRelease(s: EngineState, b: Button)
    requires b !in s.pressedButtons
    ensures ButtonReleased(ButtonPressed(s, b).0, b).0 == s
    ensures ButtonReleased(s, b).0 == s
  {
    assert s.pressedButtons + {b} - {b} == s.pressedButtons;
    assert s.pressedButtons - {b} == s.pressedButtons;
  }

  /** Two moves in a row are chained: the second reports as `previous` the
      position the first reported as `current`, and the two deltas add up to
      the delta a single move over the whole span would report. */
  lemma {:induction false} MovesChain(s: EngineState, c1: Point, c2: Point)
    ensures var first := SetMousePosition(s, c1);
            var second := SetMousePosition(first.0, c2);
            var direct := SetMousePosition(s, c2);
            && second.1.move.previous == first.1.move.current
            && second.0 == direct.0
            && WrapAdd(first.1.move.delta.0, second.1.move.delta.0) == direct.1.move.delta.0
            && WrapAdd(first.1.move.delta.1, second.1.move.delta.1) == direct.1.move.delta.1
  {
    WrapSubTelescope(s.mouseX, c1.0, c2.0);
    WrapSubTelescope(s.mouseY, c1.1, c2.1);
  }

  /** The window initialiser and the pointer mutators touch disjoint fields,
      so their order does not matter. */
  lemma WindowAndMouseCommute(s: EngineState, w: i64, h: i64, cur: Point)
    ensures SetMousePosition(InitWindowAspects(s, w, h), cur).0
         == InitWindowAspects(SetMousePosition(s, cur).0, w, h)
    ensures SetMousePosition(InitWindowAspects(s, w, h), cur).1 == SetMousePosition(s, cur).1
  {
  }
}

/** The engine as one sequential state machine. The source runs a background
    worker fed by a channel and guards the state and the registry with locks;
    here the channel is the queue `seq<Event>`, the worker advances by
    explicit steps, and every call runs to completion before the next. */
module Engines {
  import opened Ints
  import opened Events
  import opened Listeners
  import opened Dispatch
  import Tracker

  /** Whether the worker loop is still receiving. */
  datatype Status = Running | Stopped

  /** The engine: the registry, the events sent but not yet received, the
      worker, the state record, and the process-wide id counter (threaded
      through explicitly rather than kept in a global). */
  datatype Engine = Engine(
    listeners: Registry,
    queue: seq<Event>,
    worker: Status,
    state: Tracker.EngineState,
    nextId: u64)

  /** What one pass of the worker loop handed to listeners. */
  datatype Delivery = Delivery(event: Event, invoked: seq<Handle>)

  /** Sending on a channel whose receiver is gone makes the source abort the
      process; the model reports it instead. */
  datatype Result<T> = Ok(value: T) | ChannelClosed

  /** Whether `q` holds the stop sentinel. */
  predicate HasTerminate(q: seq<Event>)
  {
    exists i :: 0 <= i < |q| && q[i].data.Terminate?
  }

  /** `Engine::new`: an empty registry and queue, a fresh state, the worker started. */
  function New(nextId: u64): (en: Engine)
    ensures en.worker == Running && en.queue == [] && en.listeners == map[]
    ensures en.state == Tracker.DefaultState() && en.nextId == nextId
  {
    Engine(map[], [], Running, Tracker.DefaultState(), nextId)
  }

  /** `Engine::broadcast`: enqueues `e` behind everything already sent. */
  function Broadcast(en: Engine, e: Event): (r: Result<Engine>)
    ensures en.worker == Stopped <==> r.ChannelClosed?
    ensures r.Ok? ==> r.value == en.(queue := en.queue + [e])
  {
    if en.worker == Stopped then ChannelClosed
    else Ok(en.(queue := en.queue + [e]))
  }

  /** Broadcasts a run of events in order. */
  function BroadcastAll(en: Engine, es: seq<Event>): (r: Result<Engine>)
    ensures en.worker == Stopped && es != [] ==> r.ChannelClosed?
    ensures en.worker == Running ==> r == Ok(en.(queue := en.queue + es))
    decreases |es|
  {
    if es == [] then
      assert en.queue + es == en.queue;
      Ok(en)
    else
      match Broadcast(en, es[0])
      case ChannelClosed => ChannelClosed
      case Ok(en1) =>
        var r := BroadcastAll(en1, es[1..]);
        assert en.queue + [es[0]] + es[1..] == en.queue + es;
        r
  }

  /** Stores `st` (the mutator's new state), stamps `data` with the next id
      and broadcasts the event. */
  function Emit(en: Engine, st: Tracker.EngineState, data: Data, now: Instant): (r: Result<Engine>)
    ensures en.worker == Stopped <==> r.ChannelClosed?
    ensures r.Ok? ==> |r.value.queue| == |en.queue| + 1 && r.value.queue[..|en.queue|] == en.queue
    ensures r.Ok? ==> var e := r.value.queue[|en.queue|];
      e.id == en.nextId && e.data == data && e.time == now
    ensures r.Ok? ==> r.value.nextId == NextU64(en.nextId)
    ensures r.Ok? ==> r.value.state == st && r.value.listeners == en.listeners && r.value.worker == en.worker
  {
    var (e, next) := NewEvent(en.nextId, data, now);
    var r := Broadcast(en.(state := st, nextId := next), e);
    assert r.Ok? ==> r.value.queue[..|en.queue|] == en.queue;
    r
  }

  /** `Engine::add` on the engine's registry. */
  function AddListener(en: Engine, priority: i64, l: Handle): (r: Engine)
    ensures r.listeners == Add(en.listeners, priority, l)
    ensures r.queue == en.queue && r.state == en.state && r.nextId == en.nextId && r.worker == en.worker
  {
    en.(listeners := Add(en.listeners, priority, l))
  }

  /** `Engine::clean` on the engine's registry. */
  function CleanListeners(en: Engine, alive: Handle -> bool): (r: Engine)
    ensures r.listeners == Clean(en.listeners, alive)
    ensures r.queue == en.queue && r.state == en.state && r.nextId == en.nextId && r.worker == en.worker
  {
    en.(listeners := Clean(en.listeners, alive))
  }

  /** `Engine::init_window_aspects`: a new baseline; no event, no id used. */
  function InitWindowAspects(en: Engine, width: i64, height: i64): (r: Engine)
    ensures r.state.windowWidth == width && r.state.windowHeight == height
    ensures r.state.MousePosition() == en.state.MousePosition()
    ensures r.state.pressedButtons == en.state.pressedButtons
    ensures r.queue == en.queue && r.nextId == en.nextId && r.listeners == en.listeners && r.worker == en.worker
  {
    en.(state := Tracker.InitWindowAspects(en.state, width, height))
  }

  /** `Engine::init_mouse_position`: a new baseline; no event, no id used. */
  function InitMousePosition(en: Engine, p: Point): (r: Engine)
    ensures r.state.MousePosition() == p
    ensures r.state.windowWidth == en.state.windowWidth && r.state.windowHeight == en.state.windowHeight
    ensures r.state.pressedButtons == en.state.pressedButtons
    ensures r.queue == en.queue && r.nextId == en.nextId && r.listeners == en.listeners && r.worker == en.worker
  {
    en.(state := Tracker.InitMousePosition(en.state, p))
  }

  /** `Engine::set_mouse_position`: stores `cur` and sends the move from the
      previously stored position. */
  function SetMousePosition(en: Engine, cur: Point, now: Instant): (r: Result<Engine>)
    ensures en.worker == Stopped <==> r.ChannelClosed?
    ensures r.Ok? ==> r.value.state.MousePosition() == cur
    ensures r.Ok? ==> r.value.state.pressedButtons == en.state.pressedButtons
    ensures r.Ok? ==> |r.value.queue| == |en.queue| + 1 && r.value.queue[..|en.queue|] == en.queue
    ensures r.Ok? ==> var e := r.value.queue[|en.queue|];
      && e.id == en.nextId
      && e.data.MoveData? && e.data.move.MouseMove?
      && e.data.move.previous == en.state.MousePosition()
      && e.data.move.current == cur
      && WrapAdd(e.data.move.previous.0, e.data.move.delta.0) == cur.0
      && WrapAdd(e.data.move.previous.1, e.data.move.delta.1) == cur.1
      && (-TWO_63 <= cur.0 - en.state.mouseX < TWO_63 ==> e.data.move.delta.0 == cur.0 - en.state.mouseX)
      && (-TWO_63 <= cur.1 - en.state.mouseY < TWO_63 ==> e.data.move.delta.1 == cur.1 - en.state.mouseY)
    ensures r.Ok? ==> r.value.state.windowWidth == en.state.windowWidth && r.value.state.windowHeight == en.state.windowHeight
    ensures r.Ok? ==> r.value.listeners == en.listeners && r.value.worker == en.worker && r.value.nextId == NextU64(en.nextId)
  {
    var (st, data) := Tracker.SetMousePosition(en.state, cur);
    Emit(en, st, data, now)
  }

  /** `Engine::button_pressed`: records the button and sends its press. */
  function ButtonPressed(en: Engine, b: Button, now: Instant): (r: Result<Engine>)
    ensures en.worker == Stopped <==> r.ChannelClosed?
    ensures r.Ok? ==> r.value.state.pressedButtons == en.state.pressedButtons + {b}
    ensures r.Ok? ==> r.value.state.MousePosition() == en.state.MousePosition()
    ensures r.Ok? ==> |r.value.queue| == |en.queue| + 1 && r.value.queue[..|en.queue|] == en.queue
    ensures r.Ok? ==> var e := r.value.queue[|en.queue|];
      e.id == en.nextId && e.data == ButtonData(b, Press)
    ensures r.Ok? ==> r.value.state.windowWidth == en.state.windowWidth && r.value.state.windowHeight == en.state.windowHeight
    ensures r.Ok? ==> r.value.listeners == en.listeners && r.value.worker == en.worker && r.value.nextId == NextU64(en.nextId)
  {
    var (st, data) := Tracker.ButtonPressed(en.state, b);
    Emit(en, st, data, now)
  }

  /** `Engine::button_released`: forgets the button and sends its release. */
  function ButtonReleased(en: Engine, b: Button, now: Instant): (r: Result<Engine>)
    ensures en.worker == Stopped <==> r.ChannelClosed?
    ensures r.Ok? ==> r.value.state.pressedButtons == en.state.pressedButtons - {b}
    ensures r.Ok? ==> r.value.state.MousePosition() == en.state.MousePosition()
    ensures r.Ok? ==> |r.value.queue| == |en.queue| + 1 && r.value.queue[..|en.queue|] == en.queue
    ensures r.Ok? ==> var e := r.value.queue[|en.queue|];
      e.id == en.nextId && e.data == ButtonData(b, Release)
    ensures r.Ok? ==> r.value.state.windowWidth == en.state.windowWidth && r.value.state.windowHeight == en.state.windowHeight
    ensures r.Ok? ==> r.value.listeners == en.listeners && r.value.worker == en.worker && r.value.nextId == NextU64(en.nextId)
  {
    var (st, data) := Tracker.ButtonReleased(en.state, b);
    Emit(en, st, data, now)
  }

  /** Liveness as the worker finds it when it dispatches `e`: a handle's
      last strong reference can go away between two queued events, so each
      event is dispatched under its own liveness. */
  function LiveAt(alive: (Event, Handle) -> bool, e: Event): Handle -> bool
  {
    h => alive(e, h)
  }

  /** One pass of the worker loop: receive the oldest event; on `Terminate`
      leave the loop (the receiver, and whatever it still held, is dropped);
      otherwise dispatch it to the registry, which the walk leaves untouched.
      With nothing queued, the worker would block: no step is taken. */
  function WorkerStep(en: Engine, alive: (Event, Handle) -> bool, onEvent: (Handle, Event) -> bool): (r: (Engine, seq<Delivery>))
    ensures r.0.listeners == en.listeners && r.0.state == en.state && r.0.nextId == en.nextId
    ensures |r.1| <= 1
    ensures en.worker == Stopped || en.queue == [] ==> r == (en, [])
    ensures en.worker == Running && en.queue != [] && en.queue[0].data.Terminate? ==>
      r.0.worker == Stopped && r.1 == []
    ensures en.worker == Running && en.queue != [] && !en.queue[0].data.Terminate? ==>
      && r.0.worker == Running
      && r.0.queue == en.queue[1..]
      && r.1 == [Delivery(en.queue[0], Deliver(en.listeners, LiveAt(alive, en.queue[0]), onEvent, en.queue[0]))]
  {
    if en.worker == Stopped || en.queue == [] then (en, [])
    else
      var e := en.queue[0];
      if e.data.Terminate? then (en.(worker := Stopped, queue := []), [])
      else (en.(queue := en.queue[1..]), [Delivery(e, Deliver(en.listeners, LiveAt(alive, e), onEvent, e))])
  }

  /** `ds` is what the worker hands out while draining `q` from a running
      start, and `stopped` says whether it left its loop: deliveries follow
      the queue order and none is the sentinel; each event reaches the
      listeners live when it is dispatched; the worker stops exactly when it
      meets a `Terminate`, right after the events in front of the first one,
      and delivers nothing queued behind it. */
  predicate Drained(q: seq<Event>, reg: Registry, alive: (Event, Handle) -> bool, onEvent: (Handle, Event) -> bool,
                    ds: seq<Delivery>, stopped: bool)
  {
    && |ds| <= |q|
    && (forall i :: 0 <= i < |ds| ==>
          && ds[i].event == q[i]
          && !q[i].data.Terminate?
          && ds[i].invoked == Deliver(reg, LiveAt(alive, q[i]), onEvent, q[i]))
    && (stopped <==> HasTerminate(q))
    && (stopped ==> |ds| < |q| && q[|ds|].data.Terminate?)
    && (!stopped ==> |ds| == |q|)
  }

  /** Past an ordinary head, draining the queue is delivering the head and
      then draining the tail. */
  lemma DrainedCons(q: seq<Event>, reg: Registry, alive: (Event, Handle) -> bool, onEvent: (Handle, Event) -> bool,
                    ds: seq<Delivery>, stopped: bool)
    requires q != [] && !q[0].data.Terminate?
    requires Drained(q[1..], reg, alive, onEvent, ds, stopped)
    ensures Drained(q, reg, alive, onEvent, [Delivery(q[0], Deliver(reg, LiveAt(alive, q[0]), onEvent, q[0]))] + ds, stopped)
  {
    var all := [Delivery(q[0], Deliver(reg, LiveAt(alive, q[0]), onEvent, q[0]))] + ds;
    forall i | 0 <= i < |all|
      ensures all[i].event == q[i] && !q[i].data.Terminate?
      ensures all[i].invoked == Deliver(reg, LiveAt(alive, q[i]), onEvent, q[i])
    {
      if i > 0 {
        assert all[i] == ds[i - 1];
        assert q[1..][i - 1] == q[i];
      }
    }
    if HasTerminate(q) {
      var i :| 0 <= i < |q| && q[i].data.Terminate?;
      assert q[1..][i - 1] == q[i];
    }
    if HasTerminate(q[1..]) {
      var i :| 0 <= i < |q[1..]| && q[1..][i].data.Terminate?;
      assert q[i + 1] == q[1..][i];
    }
    if stopped {
      assert q[|all|] == q[1..][|ds|];
    }
  }

  /** Runs the worker until it stops or the queue runs dry. */
  function Join(en: Engine, alive: (Event, Handle) -> bool, onEvent: (Handle, Event) -> bool): (r: (Engine, seq<Delivery>))
    ensures r.0.listeners == en.listeners && r.0.state == en.state && r.0.nextId == en.nextId
    ensures en.worker == Stopped ==> r == (en, [])
    ensures en.worker == Running ==> r.0.queue == []
    ensures en.worker == Running ==> Drained(en.queue, en.listeners, alive, onEvent, r.1, r.0.worker == Stopped)
    decreases |en.queue|
  {
    if en.worker == Stopped || en.queue == [] then (en, [])
    else if en.queue[0].data.Terminate? then
      assert HasTerminate(en.queue);
      (en.(worker := Stopped, queue := []), [])
    else
      var e := en.queue[0];
      var (en2, ds) := Join(en.(queue := en.queue[1..]), alive, onEvent);
      DrainedCons(en.queue, en.listeners, alive, onEvent, ds, en2.worker == Stopped);
      (en2, [Delivery(e, Deliver(en.listeners, LiveAt(alive, e), onEvent, e))] + ds)
  }

  /** `Drop for Engine`: sends `Terminate` behind everything already queued
      and waits for the worker to finish. Building the sentinel takes an id
      from the counter like any other event. Sending fails if the worker
      already stopped. */
  function Drop(en: Engine, now: Instant, alive: (Event, Handle) -> bool, onEvent: (Handle, Event) -> bool): (r: Result<(Engine, seq<Delivery>)>)
    ensures en.worker == Stopped <==> r.ChannelClosed?
    ensures r.Ok? ==> r.value.0.worker == Stopped && r.value.0.queue == []
    ensures r.Ok? ==> r.value.0.nextId == NextU64(en.nextId)
    ensures r.Ok? ==> r.value.0.listeners == en.listeners && r.value.0.state == en.state
    ensures r.Ok? ==> |r.value.1| <= |en.queue|
    ensures r.Ok? ==> var ds := r.value.1;
      && (forall i :: 0 <= i < |ds| ==>
            && ds[i].event == en.queue[i]
            && !ds[i].event.data.Terminate?
            && ds[i].invoked == Deliver(en.listeners, LiveAt(alive, en.queue[i]), onEvent, en.queue[i]))
      // Everything sent before the drop is processed ...
      && (!HasTerminate(en.queue) ==> |ds| == |en.queue|)
      // ... unless an earlier sentinel already ended the loop.
      && (HasTerminate(en.queue) ==> |ds| < |en.queue| && en.queue[|ds|].data.Terminate?)
  {
    var (t, next) := NewEvent(en.nextId, Terminate, now);
    match Broadcast(en.(nextId := next), t)
    case ChannelClosed => ChannelClosed
    case Ok(sent) =>
      var (done, ds) := Join(sent, alive, onEvent);
      assert HasTerminate(sent.queue) by {
        assert sent.queue[|en.queue|] == t;
      }
      Ok((done, ds))
  }

  /** Events are delivered in the order they were broadcast: broadcasting a run
      of ordinary events and then dropping the engine delivers every one of
      them, in order, each to the listeners live when it is dispatched. */
  lemma FifoDelivery(en: Engine, es: seq<Event>, now: Instant, alive: (Event, Handle) -> bool, onEvent: (Handle, Event) -> bool)
    requires en.worker == Running && en.queue == []
    requires forall i :: 0 <= i < |es| ==> !es[i].data.Terminate?
    ensures BroadcastAll(en, es).Ok?
    ensures var r := Drop(BroadcastAll(en, es).value, now, alive, onEvent);
      && r.Ok?
      && |r.value.1| == |es|
      && forall i :: 0 <= i < |es| ==>
           && r.value.1[i].event == es[i]
           && r.value.1[i].invoked == Deliver(en.listeners, LiveAt(alive, es[i]), onEvent, es[i])
  {
    var sent := BroadcastAll(en, es).value;
    assert sent.queue == es;
    assert !HasTerminate(sent.queue);
  }
}

# Event engine of rust-graphics-window, modelled in Dafny

The window library turns platform notifications into one stream of `Event`s.
Its event engine (`src/event.rs`) has four parts:

- It stamps every event with an id from a process-wide counter.
- It keeps a registry of weak listener handles, bucketed by `i64` priority.
- A background worker receives events in FIFO order and hands each one to the
  listeners. It visits priorities in ascending order and each bucket in
  registration order. It skips dead handles and stops at the first listener
  whose `on_event` returns `true`. It leaves its loop on the internal
  `Terminate` sentinel, which is never handed to a listener.
- A small state record tracks the window size, the pointer position and the
  set of pressed buttons. The mutators update it and build the event payload
  from the old and new values.

This project models that engine sequentially and proves the properties the
code promises. The modules follow the parts of the engine:

- `ints.dfy` (`Ints`): machine integer widths, plus the wrapping `i64`
  subtraction and `u64` increment the engine relies on.
- `events.dfy` (`Events`): the payload types `Mouse`, `Keyboard`, `Button`,
  `Window`, `Move`, `Touch` and `Data`. It also holds `Event`, `Event::new`
  with the `NEXT_ID` counter, and the accessors.
- `listeners.dfy` (`Listeners`): the registry `map<i64, seq<Handle>>`, with
  `add` and `clean`. `clean` exists as a pure function and as the loop the
  source runs.
- `dispatch.dfy` (`Dispatch`): one dispatch of an event. It is written as the
  source's nested walk (`WalkBucket` and `WalkRegistry`) and proved equal to
  a reference definition. The reference is the live listeners in visiting
  order, cut after the first one that consumes the event.
- `tracker.dfy` (`Tracker`): the state record and the mutators. Each mutator
  maps an old state to a new state and, where the source sends one, a
  payload.
- `engines.dfy` (`Engines`): the engine as one state machine. The channel is
  a `seq<Event>` queue, and `WorkerStep` is one pass of the worker loop.
  `Join` runs the worker until it stops. `Drop` sends `Terminate` and joins.

The model abstracts three things that the source reads from its environment:

- Whether a weak handle can still be upgraded (strong count above zero) is
  the predicate `alive`. The worker re-evaluates it for every event it
  receives, so at engine level it also takes the event being dispatched.
- A listener's answer from `on_event` is the oracle `onEvent(handle, event)`.
- The clock reading `Instant::now()` is a parameter of type `Instant`. The
  model never inspects it.

The counter `NEXT_ID` is a field of the engine record that is threaded
through every call. `AtomicU64::fetch_add` wraps, and the model writes the
wrap out. The `i64` subtraction in `set_mouse_position` is modelled as
wrapping subtraction, which is how a release build computes it.

`src/event.rs` implements no window-resize notification or coalescing, no
finger tracking, no focus events, no `quit` mutator and no normalized
coordinates. The `Window` payload there has only `SizeChange`, `Touch::Raw`
carries no normalized point, and the state record keeps width, height and an
`f64` ratio, but no normalized aspects. None of these is modelled.

## Model

| member | source | states |
|---|---|---|
| Ints.NextU64 | src/event.rs:216-221 | The id counter advances by one per event and wraps to 0 after the largest `u64`, as `fetch_add` does |
| Ints.WrapAddSubInverse | src/event.rs:327-336 | The wrapped mouse delta, added with wrapping to the previous coordinate, gives back the current coordinate for every pair of `i64` values |
| Ints.WrapSubTelescope | src/event.rs:327-336 | Wrapped deltas of consecutive moves add up, with wrapping, to the wrapped delta of one move over the whole span |
| Events.NewEvent | src/event.rs:219-237 | A new event's id is the counter's value before the call, and `get_id`, `get_data` and `get_time` return exactly what it was built from. The counter moves to the next value, wrapping at the top |
| Events.NewEvents | src/event.rs:216-225 | A run of `Event::new` calls gives the k-th event (counting from 0) the id counter + k modulo 2^64, and carries each payload unchanged |
| Events.IdsIncreaseByOne | src/event.rs:216-225 | While the counter does not wrap, successive ids increase by exactly one, so they are strictly increasing. From the initial counter 1 the k-th event has id k + 1 |
| Listeners.Survivors | src/event.rs:307 | Pruning a bucket keeps exactly the handles that are still alive, and never lengthens it |
| Listeners.SurvivorsAppend | src/event.rs:307 | Pruning works piece by piece, so survivors keep their original relative order |
| Listeners.SurvivorsCount | src/event.rs:307 | A live handle survives pruning as many times as it was registered, and a dead one not at all |
| Listeners.SurvivorsOfLive | src/event.rs:307 | A bucket with no dead handle is left exactly as it was |
| Listeners.SurvivorsIdempotent | src/event.rs:307 | Pruning an already pruned bucket removes nothing |
| Listeners.Add | src/event.rs:297-302 | `add(p, l)` makes `l` the new last entry of bucket p and keeps the earlier entries in front. It creates bucket p when absent, adds no other key and leaves every other bucket unchanged |
| Listeners.Clean | src/event.rs:304-309 | `clean` keeps every priority, even one whose bucket becomes empty. A handle stays in a bucket exactly when it was there and is alive, and survivors keep their order |
| Listeners.CleanIdempotent | src/event.rs:304-309 | A second `clean` under the same liveness changes nothing |
| Listeners.CleanBucket | src/event.rs:307 | The loop of `drain_filter` over one bucket computes the pruned bucket |
| Listeners.CleanRegistry | src/event.rs:304-309 | The loop over all buckets computes `clean` of the whole registry |
| Dispatch.MinKey | src/event.rs:274 | The walk over the ordered map starts at a key that is present and no larger than any other key |
| Dispatch.FlattenMembers | src/event.rs:274-275 | The visiting order contains a handle exactly when some bucket of the registry holds it |
| Dispatch.FlattenSplit | src/event.rs:274-275 | Every bucket below a threshold priority is visited before every bucket at or above it |
| Dispatch.FlattenAround | src/event.rs:274-275 | Bucket p is visited after all lower priorities and before all higher ones |
| Dispatch.AddVisitOrder | src/event.rs:297-302 | After `add(p, l)`, the walk reaches `l` after every listener registered at p or below, and before every listener registered above p |
| Dispatch.CleanKeepsReachable | src/event.rs:304-309 | `clean` does not change which listeners a dispatch reaches, or their order, because the walk skips exactly the handles `clean` removes |
| Dispatch.UpToFirst | src/event.rs:277-278 | The reference delivery order is a prefix of the candidates. Every listener in it except the last declines the event. It is cut short only at a consumer, and it is all candidates when none consumes |
| Dispatch.UpToFirstAppend | src/event.rs:274-282 | Over consecutive buckets, delivery stops in the first part when that part has a consumer. Otherwise it passes through the whole first part into the second |
| Dispatch.WalkBucket | src/event.rs:275-280 | The inner loop skips dead handles and stops at the first live consumer. What it invokes is the reference order over the bucket's live handles. It reports a consumer exactly when the bucket has a live one |
| Dispatch.WalkRegistry | src/event.rs:273-282 | The nested loops with the labelled break invoke the reference order over all live handles, in ascending priority and then registration order |
| Dispatch.Deliver | src/event.rs:273-282 | A dispatch invokes only live listeners, as a prefix of the live listeners in visiting order. All but the last decline. It stops early only at a consumer. When nobody consumes, every live listener is invoked once per registration |
| Dispatch.LowerPriorityConsumerShadows | src/event.rs:274-279 | A live listener at priority p that consumes the event hides it from any listener that is registered only above p |
| Dispatch.TwoPriorities | src/event.rs:274-279 | Take two live listeners at priorities 0 and 1. If the first consumes, only it is invoked. If it declines, the second is invoked |
| Tracker.DefaultState | src/event.rs:244-252 | The initial state has zero window size, the pointer at (0, 0) and no pressed button |
| Tracker.InitWindowAspects | src/event.rs:311-316 | The window size is overwritten, and the pointer and the pressed buttons are untouched |
| Tracker.InitMousePosition | src/event.rs:318-322 | The pointer position is overwritten, and the window and the pressed buttons are untouched |
| Tracker.SetMousePosition | src/event.rs:324-339 | A move event reports the stored position as `previous` and the argument as `current`. Its delta leads from `previous` to `current` and is the plain difference when that fits in `i64`. The stored position becomes the argument, and window and buttons are untouched |
| Tracker.ButtonPressed | src/event.rs:341-350 | The button is pressed afterwards, no other button changes, a press event for it is built, and position and window are untouched |
| Tracker.ButtonReleased | src/event.rs:352-361 | The button is not pressed afterwards, no other button changes, a release event for it is built, and position and window are untouched |
| Tracker.PressIdempotent | src/event.rs:344 | Pressing a pressed button leaves the state unchanged, and the press is still reported |
| Tracker.PressThenRelease | src/event.rs:341-361 | Press then release of a button that was up restores the original state. Releasing a button that is up changes nothing |
| Tracker.MovesChain | src/event.rs:324-339 | In two successive moves, the second reports the first one's `current` as its `previous`. Its state equals that of a single move to the last point, and the two deltas add up to that move's delta |
| Tracker.WindowAndMouseCommute | src/event.rs:311-339 | The window initialiser and a pointer move touch disjoint fields, so they commute |
| Engines.New | src/event.rs:262-291 | A new engine has an empty registry and queue, the default state and a running worker |
| Engines.Broadcast | src/event.rs:293-295 | Sending appends the event behind everything queued and changes nothing else. It fails exactly when the worker has already stopped |
| Engines.BroadcastAll | src/event.rs:293-295 | Successive sends to a running worker queue the events in the order they were sent |
| Engines.Emit | src/event.rs:325-338 | A mutator stores its new state and queues one event behind the existing queue. That event carries the next id and the mutator's payload, and the counter advances |
| Engines.AddListener | src/event.rs:297-302 | `add` changes the registry only, as `Listeners.Add` describes |
| Engines.CleanListeners | src/event.rs:304-309 | `clean` changes the registry only, as `Listeners.Clean` describes |
| Engines.InitWindowAspects | src/event.rs:311-316 | The window baseline changes, and no event is queued and no id is used |
| Engines.InitMousePosition | src/event.rs:318-322 | The pointer baseline changes, and no event is queued and no id is used |
| Engines.SetMousePosition | src/event.rs:324-339 | One `Move::Mouse` event is queued with the next id, and the counter advances. The event leads from the stored position to the new one, and its delta is the plain difference when that fits in `i64`. Afterwards the new position is stored, and the buttons, the window size, the registry and the worker are unchanged |
| Engines.ButtonPressed | src/event.rs:341-350 | One press event for the button is queued with the next id, and the counter advances. The button joins the pressed set, and the position, the window size, the registry and the worker are unchanged |
| Engines.ButtonReleased | src/event.rs:352-361 | One release event for the button is queued with the next id, and the counter advances. The button leaves the pressed set, and the position, the window size, the registry and the worker are unchanged |
| Engines.WorkerStep | src/event.rs:267-283 | The worker takes the oldest event. On `Terminate` it stops and hands nothing to listeners. Otherwise it delivers that event to the listeners live at that moment, and the registry stays unchanged, so dead handles are not removed. With nothing queued it takes no step |
| Engines.Join | src/event.rs:267-283 | The worker delivers queued events in FIFO order and never delivers the sentinel. Each event reaches the listeners live when it is dispatched, so liveness may change between events. The worker stops exactly when the queue holds a `Terminate`, right after the events in front of the first one, and delivers nothing behind it |
| Engines.Drop | src/event.rs:364-373 | Dropping takes an id for `Terminate`, advancing the counter, sends it last and waits until the worker has stopped. Every event queued before it is delivered in order, each under the liveness at its own dispatch, unless an earlier `Terminate` already ended the loop. Sending fails when the worker has already stopped |
| Engines.FifoDelivery | src/event.rs:293-295 | Ordinary events broadcast to a running engine and followed by a drop are all delivered, in the order they were broadcast, each to the listeners live when it is dispatched |

## Left out

- Threads, the `Mutex`/`RwLock` guards and blocking on the channel: each call runs to completion, and the worker advances by explicit steps.
- Lock poisoning handled by `result_f!`: not modelled. Sending on a closed channel is modelled as the `ChannelClosed` result, where the source aborts.
- `Instant` timestamps are an opaque parameter. The `Touch::Gesture` times are opaque values.
- The `f64` aspect ratio stored by `init_window_aspects` and the `f64` ratio fields of `Window::SizeChange`: floating point.
- Dispatch.Deliver: a listener's answer is a function of the handle and the event. The state a listener's `on_event` mutates is not modelled, so a listener registered twice gives the same answer both times within one dispatch.
- Dispatch.Deliver: liveness is fixed for the whole of one dispatch. A listener dropped by the application in the middle of a walk is not modelled.
- Engines.Join: liveness may differ from one queued event to the next, but it is a function of the event, so two queued events that are equal (same id, time and payload, possible only after the counter wraps) see the same liveness.
- Tracker.SetMousePosition: the delta uses wrapping `i64` subtraction, as in a release build. The overflow panic of a debug build is not modelled.
- Events.NewEvent: the counter is threaded through the engine record. Sharing it between several engines of one process is not modelled.
- The `Listener` trait and the `Weak`/`Arc` upgrade mechanics: replaced by the `onEvent` oracle and the `alive` predicate.
- Window-resize handling (`window_size_changed`), coalescing, finger tracking, focus events, a `quit` mutator and normalized coordinates: none of them appears in `src/event.rs`.
- Platform back ends (XCB/GLX/X11 loaders, Android glue, the WASM window) and their key-code tables: FFI plumbing outside the engine.

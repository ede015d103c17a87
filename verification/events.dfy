/** The event model of `src/event.rs`: the payload variants, the `Event`
    record and the process-wide id counter that stamps each event. */
module Events {
  import opened Ints

  type FingerIndex = i64

  /** A point in absolute window pixels, `(x, y)`. */
  type Point = (i64, i64)

  /** A clock reading. The source reads `Instant::now()`; here the reading is
      supplied by the caller and never inspected. */
  datatype Instant = Instant(ticks: nat)

  /** A length of time, carried opaquely like `Instant`. */
  datatype Duration = Duration(ticks: nat)

  datatype Mouse =
    | Left
    | Right
    | Middle
    | Back
    | Forward
    | Offic
    | UnknownMouse(code: u32)

  datatype Keyboard =
    | A | B | C | D | E | F | G | H | I | J | K | L | M
    | N | O | P | Q | R | S | T | U | V | W | X | Y | Z
    | Escape(side: u8)
    | Function(index: u8)
    | PrintScreen
    | ScrollLock
    | PauseBreak
    | BackQuote
    | Number(number: i32, padd: bool)
    | Backspace
    | Delete
    | Insert
    | Home
    | End
    | PageUp
    | PageDown
    | NumLock
    | Slash(side: u8)
    | Star
    | Plus(side: u8)
    | Minus(side: u8)
    | Enter(side: u8)
    | Dot(side: u8)
    | Tab
    | BracketLeft
    | BracketRight
    | CapseLock(side: u8)
    | SemiColon
    | Quote
    | BackSlash(side: u8)
    | Shift(side: u8)
    | Comma(side: u8)
    | Control(side: u8)
    | Alt(side: u8)
    | Space(side: u8)
    | Command(side: u8)
    | Super(side: u8)
    | Properties(side: u8)
    | ArrowUp
    | ArrowDown
    | ArrowLeft
    | ArrowRight
    | Equal
    | Menu(side: u8)
    | UnknownKey(code: u32)

  datatype Button = MouseButton(mouse: Mouse) | KeyboardButton(key: Keyboard)

  /** A window resize payload; the `f64` ratio fields are not modelled. */
  datatype Window = SizeChange(
    width: i64, height: i64,
    previousWidth: i64, previousHeight: i64,
    deltaWidth: i64, deltaHeight: i64)

  datatype Move =
    | MouseMove(previous: Point, current: Point, delta: Point)
    | TouchMove(index: FingerIndex, previous: Point, current: Point, delta: Point)

  datatype ButtonAction = Press | Release

  datatype TouchAction = TouchPress | HardPress | TouchRelease

  datatype TouchGesture =
    | Tap
    | Drag(index: FingerIndex, start: Point, previous: Point, current: Point, delta: Point)
    | Scale(first: (FingerIndex, Point), second: (FingerIndex, Point),
            startDistance: i64, previousDistance: i64,
            currentDistance: i64, deltaDistance: i64)

  datatype GestureState = Started | InMiddle | Ended | Canceled

  datatype Touch =
    | Gesture(startTime: Instant, duration: Duration, state: GestureState, gest: TouchGesture)
    | Raw(index: FingerIndex, action: TouchAction, point: Point)

  datatype Data =
    | MoveData(move: Move)
    | ButtonData(button: Button, action: ButtonAction)
    | TouchData(touch: Touch)
    | WindowData(window: Window)
    | Quit
    | Terminate

  /** One occurrence: an id, the time it was built and its payload. Being a
      value, it cannot change after construction. */
  datatype Event = Event(id: u64, time: Instant, data: Data)

  /** The initial value of the process-wide `NEXT_ID` counter. */
  const FIRST_ID: u64 := 1

  function GetId(e: Event): u64 { e.id }

  function GetTime(e: Event): Instant { e.time }

  function GetData(e: Event): Data { e.data }

  /** `Event::new`: takes the counter's current value as the id and advances
      the counter (wrapping like `fetch_add`). Returns the event and the new
      counter value. */
  function NewEvent(counter: u64, data: Data, now: Instant): (r: (Event, u64))
    ensures GetId(r.0) == counter
    ensures GetData(r.0) == data
    ensures GetTime(r.0) == now
    ensures counter < TWO_64 - 1 ==> r.1 == counter + 1
    ensures counter == TWO_64 - 1 ==> r.1 == 0
  {
    (Event(counter, now, data), NextU64(counter))
  }

  /** A run of successive `Event::new` calls, one per payload, in order. */
  function NewEvents(counter: u64, datas: seq<Data>, times: seq<Instant>): (r: (seq<Event>, u64))
    requires |times| == |datas|
    ensures |r.0| == |datas|
    ensures forall i :: 0 <= i < |datas| ==> r.0[i].data == datas[i] && r.0[i].time == times[i]
    ensures forall i :: 0 <= i < |datas| ==> r.0[i].id == (counter + i) % TWO_64
    ensures r.1 == (counter + |datas|) % TWO_64
    decreases |datas|
  {
    if datas == [] then ([], counter)
    else
      var (e, c) := NewEvent(counter, datas[0], times[0]);
      var (rest, c') := NewEvents(c, datas[1..], times[1..]);
      ShiftedMod(counter, rest, datas);
      var all := [e] + rest;
      assert forall i :: 0 < i < |all| ==> all[i] == rest[i - 1];
      (all, c')
  }

  /** Helper for `NewEvents`: the ids of the tail, counted from the advanced
      counter, are those of the whole run counted from the original one. */
  lemma ShiftedMod(counter: u64, rest: seq<Event>, datas: seq<Data>)
    requires |datas| > 0 && |rest| == |datas| - 1
    requires forall i :: 0 <= i < |rest| ==> rest[i].id == (NextU64(counter) + i) % TWO_64
    ensures forall i :: 0 <= i < |rest| ==> rest[i].id == (counter + (i + 1)) % TWO_64
    ensures (NextU64(counter) + |datas[1..]|) % TWO_64 == (counter + |datas|) % TWO_64
  {
    forall i | 0 <= i < |rest|
      ensures rest[i].id == (counter + (i + 1)) % TWO_64
    {
      ModShift(counter + 1, i);
    }
    ModShift(counter + 1, |datas| - 1);
  }

  lemma ModShift(x: nat, i: nat)
    ensures ((x % TWO_64) + i) % TWO_64 == (x + i) % TWO_64
  {
    var q := x / TWO_64;
    assert x == q * TWO_64 + x % TWO_64;
    ModOfShift(x + i, (x % TWO_64 + i) % TWO_64 - (x + i));
  }

  /** Ids handed out by successive `Event::new` calls increase by exactly one
      from call to call, as long as the 64-bit counter does not wrap. Starting
      from the initial counter, the k-th event (counting from 0) has id k + 1. */
  lemma {:induction false} IdsIncreaseByOne(counter: u64, datas: seq<Data>, times: seq<Instant>)
    requires |times| == |datas|
    requires counter + |datas| <= TWO_64
    ensures var evs := NewEvents(counter, datas, times).0;
      forall i :: 0 <= i < |evs| ==> evs[i].id == counter + i
    ensures var evs := NewEvents(counter, datas, times).0;
      forall i, j :: 0 <= i < j < |evs| ==> evs[i].id < evs[j].id
    ensures counter == FIRST_ID ==> var evs := NewEvents(counter, datas, times).0;
      forall i :: 0 <= i < |evs| ==> evs[i].id == i + 1
  {
    var evs := NewEvents(counter, datas, times).0;
    forall i | 0 <= i < |evs|
      ensures evs[i].id == counter + i
    {
      ModOfShift(counter + i, 0);
    }
  }
}

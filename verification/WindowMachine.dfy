/**
 Window lifecycle requests, src/app.rs: one mutable borrow, one queue, and AppKit calls that may
 call back into dispatch. A step is one thing the thread does between two points where AppKit
 or a handler has a choice.
 */
module WindowMachine {
  import opened Wrappers

  type Id = nat

  const FIRST_WINDOW_ID: Id := 1

  datatype Kind = UserEvent | WindowOpened | CloseRequested | OtherEvent

  datatype Op =
    | Open(id: Id)
    | Close(id: Id)
    | PerformClose(id: Id)
    | SetCaretRect(id: Id, rect: int)

  /** What is on the thread's stack, bottom first. */
  datatype Frame =
    | Handler(id: Id)            // the app's handler, inside the borrow
    | DevActions                 // the dev window's own queue; AppKit calls
    | Drain                      // the loop over the queue
    | Showing(id: Id)            // makeKeyAndOrderFront of a window not yet stored
    | PerformingClose(id: Id)    // performClose
    | Closing(id: Id)            // close of a window already removed

  datatype World = World(
    live: bool,                  // APP_STATE is Some
    borrowed: bool,
    panicked: bool,              // APP_STATE was borrowed twice
    windows: seq<Id>,
    count: nat,                  // WINDOW_COUNT
    pending: seq<Op>,
    carets: map<Id, int>,
    stack: seq<Frame>,
    log: Log)

  /** What has happened, for stating properties. */
  datatype Log = Log(
    enqueued: seq<Op>, popped: seq<Op>,
    closed: seq<Id>,             // removed by a Close
    missed: seq<Id>,             // Closes that found no window
    dropped: seq<Id>,            // windows whose app state was gone
    delivered: seq<(Id, Kind, Id)>, // addressee, event, receiver
    events: nat, changed: bool)  // dispatches begun; a window was stored or removed

  datatype Step =
    | Event(id: Id, kind: Kind)  // AppKit calls back
    | Enqueue(op: Op)            // the running handler asks
    | EndHandler
    | Return                     // the AppKit call on top returns
    | PopOp                      // one turn of the drain loop
    | Quit                       // the run loop is over

  /** One window, no count yet, and whatever the app's first handlers asked for: boot does not drain it. */
  function Boot(asked: seq<Op>): World {
    World(true, false, false, [FIRST_WINDOW_ID], 0, asked, map[], [], Log(asked, [], [], [], [], [], 0, false))
  }

  /* ---------------------------------------------------------------- steps */

  function WindowIndex(windows: seq<Id>, id: Id): (r: Option<nat>)
    ensures r.Some? ==> r.value < |windows| && windows[r.value] == id && id !in windows[..r.value]
    ensures r.None? ==> id !in windows
  {
    if |windows| == 0 then None
    else if windows[0] == id then Some(0)
    else match WindowIndex(windows[1..], id)
      case None => None
      case Some(i) => assert windows == [windows[0]] + windows[1..]; Some(i + 1)
  }

  /** Who gets an event: its window, else, for a wake, whichever window is still there. */
  function Receiver(windows: seq<Id>, id: Id, kind: Kind): (r: Option<nat>)
    ensures r.Some? ==> r.value < |windows|
  {
    match WindowIndex(windows, id)
    case Some(i) => Some(i)
    case None => if kind == UserEvent && |windows| > 0 then Some(0) else None
  }

  function Top(w: World): Option<Frame> {
    if |w.stack| == 0 then None else Some(w.stack[|w.stack| - 1])
  }

  function Below(w: World): seq<Frame> {
    if |w.stack| == 0 then [] else w.stack[..|w.stack| - 1]
  }

  /** `dispatch_event_for` up to the handler, or past it when nobody gets the event. */
  function Dispatch(w: World, id: Id, kind: Kind): World {
    if w.borrowed then w.(panicked := true)
    else
      var log := w.log.(events := w.log.events + 1);
      match (if w.live then Receiver(w.windows, id, kind) else None)
      case None => w.(stack := w.stack + [DevActions], log := log)
      case Some(i) =>
        w.(borrowed := true, stack := w.stack + [Handler(w.windows[i])],
           log := log.(delivered := log.delivered + [(id, kind, w.windows[i])]))
  }

  /** AppKit runs between events and while it serves a call. */
  predicate AppKitRuns(w: World) {
    match Top(w)
    case None => w.live
    case Some(f) => !f.Handler? && !f.Drain?
  }

  /** The rest of `Open` once the window has been shown. */
  function Store(w: World, id: Id): World {
    if w.borrowed then w.(panicked := true)
    else if w.live then
      var windows := w.windows + [id];
      Dispatch(w.(windows := windows, count := |windows|, log := w.log.(changed := true)), id, WindowOpened)
    else w.(log := w.log.(dropped := w.log.dropped + [id]))
  }

  function Remove(windows: seq<Id>, i: nat): seq<Id>
    requires i < |windows|
  {
    windows[..i] + windows[i + 1..]
  }

  /** One op, just taken off the queue. */
  function Apply(w: World, op: Op): World {
    if op.Open? then w.(stack := w.stack + [Showing(op.id)])
    else if w.borrowed then w.(panicked := true)
    else
      match (if w.live then WindowIndex(w.windows, op.id) else None)
      case None => if op.Close? then w.(log := w.log.(missed := w.log.missed + [op.id])) else w
      case Some(i) =>
        match op
        case PerformClose(id) => w.(stack := w.stack + [PerformingClose(id)])
        case SetCaretRect(id, rect) => w.(carets := w.carets[id := rect])
        case Close(id) =>
          var windows := Remove(w.windows, i);
          w.(windows := windows, count := |windows|, stack := w.stack + [Closing(id)],
             log := w.log.(closed := w.log.closed + [id], changed := true))
  }

  predicate InHandler(w: World) {
    Top(w).Some? && Top(w).value.Handler?
  }

  /** The call on top returns; what its caller does next. */
  function Returned(w: World): World
    requires Top(w).Some?
  {
    match Top(w).value
    case DevActions => w.(stack := Below(w) + [Drain])
    case Showing(id) => Store(w.(stack := Below(w)), id)
    case PerformingClose(_) => w.(stack := Below(w))
    case Closing(_) => w.(stack := Below(w))
    case _ => w
  }

  /** `q.remove(0)`, if there is anything. */
  function Popped(w: World): World {
    if |w.pending| == 0 then w.(stack := Below(w))
    else
      var op := w.pending[0];
      Apply(w.(pending := w.pending[1..], log := w.log.(popped := w.log.popped + [op])), op)
  }

  function Next(w: World, step: Step): World {
    if w.panicked then w
    else
      match step
      case Event(id, kind) => if AppKitRuns(w) then Dispatch(w, id, kind) else w
      case Enqueue(op) =>
        if InHandler(w) then w.(pending := w.pending + [op], log := w.log.(enqueued := w.log.enqueued + [op])) else w
      case EndHandler => if InHandler(w) then w.(borrowed := false, stack := Below(w) + [DevActions]) else w
      case Return => if Top(w).Some? then Returned(w) else w
      case PopOp => if Top(w) == Some(Drain) then Popped(w) else w
      case Quit =>
        if |w.stack| == 0 && w.live then
          w.(live := false, windows := [], log := w.log.(dropped := w.log.dropped + w.windows))
        else w
  }

  function Run(w: World, steps: seq<Step>): World {
    if |steps| == 0 then w else Next(Run(w, steps[..|steps| - 1]), steps[|steps| - 1])
  }

  /* ---------------------------------------------------------------- the borrow */

  /** A frame that only a drain loop starts. */
  predicate OpFrame(f: Frame) {
    f.Showing? || f.PerformingClose? || f.Closing?
  }

  /** A handler is never below another frame, and an op's AppKit call always has its drain loop below. */
  ghost predicate Nested(stack: seq<Frame>) {
    forall i :: 0 <= i < |stack| ==>
      (stack[i].Handler? ==> i == |stack| - 1) && (OpFrame(stack[i]) ==> i > 0 && stack[..i][i - 1] == Drain)
  }

  ghost predicate Guarded(w: World) {
    && !w.panicked && Nested(w.stack)
    && (w.borrowed <==> InHandler(w))
  }

  /* ---------------------------------------------------------------- the queue and the windows */

  function OpenIds(ops: seq<Op>): seq<Id> {
    if |ops| == 0 then []
    else OpenIds(ops[..|ops| - 1]) + if ops[|ops| - 1].Open? then [ops[|ops| - 1].id] else []
  }

  function CloseIds(ops: seq<Op>): seq<Id> {
    if |ops| == 0 then []
    else CloseIds(ops[..|ops| - 1]) + if ops[|ops| - 1].Close? then [ops[|ops| - 1].id] else []
  }

  /** The windows being shown: built, not yet stored. */
  function Shown(stack: seq<Frame>): seq<Id> {
    if |stack| == 0 then []
    else Shown(stack[..|stack| - 1]) + if stack[|stack| - 1].Showing? then [stack[|stack| - 1].id] else []
  }

  /** Every queued op is either waiting or was popped, in queue order, once. */
  ghost predicate Conserved(w: World) {
    w.log.enqueued == w.log.popped + w.pending
  }

  /** Nothing waits once the thread is back in the run loop; before the first dispatch, nothing is popped. */
  ghost predicate Drained(w: World) {
    && (|w.stack| == 0 && w.log.events > 0 ==> |w.pending| == 0)
    && (w.log.events == 0 ==> |w.stack| == 0 && |w.log.popped| == 0)
  }

  function Count(s: seq<Id>, id: Id): nat {
    if |s| == 0 then 0 else Count(s[..|s| - 1], id) + if s[|s| - 1] == id then 1 else 0
  }

  /** Windows under `id`: each one asked for is open, being shown, closed or dropped; each Close took one or none. */
  ghost predicate AccountedFor(w: World, id: Id) {
    && Count(w.windows, id) + Count(Shown(w.stack), id) + Count(w.log.closed, id) + Count(w.log.dropped, id)
       == (if id == FIRST_WINDOW_ID then 1 else 0) + Count(OpenIds(w.log.popped), id)
    && Count(w.log.closed, id) + Count(w.log.missed, id) == Count(CloseIds(w.log.popped), id)
  }

  ghost predicate Accounted(w: World) {
    forall id :: AccountedFor(w, id)
  }

  /** The count mirrors the windows from the first change on; boot leaves it 0. */
  ghost predicate Counted(w: World) {
    && (w.log.changed && w.live ==> w.count == |w.windows|)
    && (!w.log.changed ==> w.count == 0 && (w.live ==> w.windows == [FIRST_WINDOW_ID]))
    && (if w.live then |w.log.dropped| == 0 else |w.windows| == 0)
  }

  ghost predicate Inv(w: World) {
    Guarded(w) && Conserved(w) && Drained(w) && Accounted(w) && Counted(w)
  }
}

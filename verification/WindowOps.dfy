/**
 The thread-local window state of src/app.rs as it is updated in place. What AppKit and the
 handlers will do is a finite script; every method proves that the real fields follow the machine.
 */
module WindowOps {
  import opened Wrappers
  import opened WindowMachine
  import opened WindowRuns

  /** What AppKit does while it serves one call: it raises events, then returns. */
  datatype Callback = Fire(id: Id, kind: Kind) | Done

  function TotalAsks(asks: seq<seq<Op>>): nat {
    if |asks| == 0 then 0 else |asks[0]| + TotalAsks(asks[1..])
  }

  ghost predicate StartsWith(trace: seq<Step>, prefix: seq<Step>) {
    |prefix| <= |trace| && trace[..|prefix|] == prefix
  }

  lemma {:induction false} StartsThrough(a: seq<Step>, b: seq<Step>, c: seq<Step>)
    requires StartsWith(b, a) && StartsWith(c, b)
    ensures StartsWith(c, a)
  {
    assert c[..|a|] == c[..|b|][..|a|];
  }

  /** Outside a handler the state can be borrowed. */
  lemma {:induction false} Free(asked: seq<Op>, steps: seq<Step>)
    ensures var w := Run(Boot(asked), steps); !w.panicked && (w.borrowed <==> InHandler(w))
  {
    RunKeepsInv(asked, steps);
  }

  class WindowQueue {
    var live: bool
    var borrowed: bool
    var windows: seq<Id>
    var count: nat
    var pending: seq<Op>
    var carets: map<Id, int>
    var script: seq<Callback>   // AppKit's choices to come
    var asks: seq<seq<Op>>      // what each handler to come will ask for
    ghost var booted: seq<Op>
    ghost var trace: seq<Step>
    ghost var w: World          // where `trace` leads

    ghost predicate Reached()
      reads this`booted, this`trace, this`w
    {
      w == Run(Boot(booted), trace) && !w.panicked && (w.borrowed <==> InHandler(w))
    }

    /** The real fields are those of `v`. */
    ghost predicate Mirrors(v: World)
      reads this
    {
      live == v.live && borrowed == v.borrowed && windows == v.windows && count == v.count
      && pending == v.pending && carets == v.carets
    }

    ghost predicate Valid()
      reads this
    {
      Mirrors(w) && Reached()
    }

    /** The work the script, the handlers and the queue still hold. */
    ghost function Work(): nat
      reads this
    {
      |pending| + |script| + TotalAsks(asks)
    }

    /** Boot stores the first window without counting it; `resumed` may already ask for windows. */
    constructor (asked: seq<Op>, script: seq<Callback>, asks: seq<seq<Op>>)
      ensures Valid() && w == Boot(asked)
      ensures this.script == script && this.asks == asks
    {
      live, borrowed, windows, count := true, false, [FIRST_WINDOW_ID], 0;
      pending, carets := asked, map[];
      this.script, this.asks := script, asks;
      booted, trace, w := asked, [], Boot(asked);
    }

    /** One more step of the machine. */
    ghost method Took(step: Step)
      requires Reached()
      modifies this`trace, this`w
      ensures Reached() && trace == old(trace) + [step] && w == Next(old(w), step)
    {
      RunPush(Boot(booted), trace, step);
      trace, w := trace + [step], Next(w, step);
      Free(booted, trace);
    }

    ghost method TookEnd()
      requires Reached() && InHandler(w)
      modifies this`trace, this`w
      ensures Reached() && trace == old(trace) + [EndHandler]
      ensures w == old(w).(borrowed := false, stack := Below(old(w)) + [DevActions])
    {
      Took(EndHandler);
    }

    /** DevActions gives way to the drain loop; PerformingClose and Closing are over. */
    ghost method TookReturn()
      requires Reached() && Top(w).Some?
      requires Top(w).value.DevActions? || Top(w).value.PerformingClose? || Top(w).value.Closing?
      modifies this`trace, this`w
      ensures Reached() && trace == old(trace) + [Return]
      ensures w == old(w).(stack := Below(old(w)) + if Top(old(w)).value.DevActions? then [Drain] else [])
    {
      Took(Return);
    }

    ghost method TookEvent(id: Id, kind: Kind)
      requires Reached() && AppKitRuns(w)
      modifies this`trace, this`w
      ensures Reached() && trace == old(trace) + [Event(id, kind)] && w == Dispatch(old(w), id, kind)
    {
      Took(Event(id, kind));
    }

    /** A window has been shown. */
    ghost method TookShow(id: Id)
      requires Reached() && Top(w) == Some(Showing(id))
      modifies this`trace, this`w
      ensures Reached() && trace == old(trace) + [Return]
      ensures if old(w).live then w == Dispatch(Stored(old(w), id), id, WindowOpened)
              else w == old(w).(stack := Below(old(w)), log := w.log)
    {
      if w.live { StoringReturns(w, id); }
      Took(Return);
    }

    ghost method TookQuit()
      requires Reached() && |w.stack| == 0 && w.live
      modifies this`trace, this`w
      ensures Reached() && trace == old(trace) + [Quit]
      ensures w == old(w).(live := false, windows := [], log := w.log)
    {
      Took(Quit);
    }

    ghost method TookPop()
      requires Reached() && Top(w) == Some(Drain)
      modifies this`trace, this`w
      ensures Reached() && trace == old(trace) + [PopOp] && w == Popped(old(w))
    {
      Took(PopOp);
    }

    /** `borrow_mut`; a second one would panic. */
    method BorrowMut()
      requires !borrowed
      modifies this`borrowed
      ensures borrowed
    {
      borrowed := true;
    }

    /** The end of the borrow's scope. */
    method Release()
      modifies this`borrowed
      ensures !borrowed
    {
      borrowed := false;
    }

    /** `open_window`, `close_window`, `perform_close`, `set_caret_rect_phys_for`: queued, not done. */
    method Enqueue(op: Op)
      requires Valid() && InHandler(w)
      modifies this`pending, this`trace, this`w
      ensures Valid() && trace == old(trace) + [Step.Enqueue(op)] && w == Next(old(w), Step.Enqueue(op))
      ensures pending == old(pending) + [op]
    {
      pending := pending + [op];
      Took(Step.Enqueue(op));
    }

    /** The app's handler asks for what it will. */
    method Handle()
      requires Valid() && InHandler(w)
      modifies this
      ensures Valid() && InHandler(w) && w.stack == old(w).stack && live == old(live)
      ensures pending == old(pending) + (if |old(asks)| == 0 then [] else old(asks)[0])
      ensures StartsWith(trace, old(trace)) && Work() <= old(Work()) && booted == old(booted)
    {
      if |asks| > 0 {
        var ops := asks[0];
        asks := asks[1..];
        AskFor(ops);
      }
    }

    method AskFor(ops: seq<Op>)
      requires Valid() && InHandler(w)
      modifies this`pending, this`trace, this`w
      ensures Valid() && InHandler(w) && w.stack == old(w).stack
      ensures pending == old(pending) + ops && StartsWith(trace, old(trace))
    {
      for i := 0 to |ops|
        invariant Valid() && InHandler(w) && w.stack == old(w).stack
        invariant StartsWith(trace, old(trace)) && pending == old(pending) + ops[..i]
        modifies this`pending, this`trace, this`w
      {
        ghost var now := trace;
        Enqueue(ops[i]);
        StartsThrough(old(trace), now, trace);
        AskedOne(old(pending), ops, i);
      }
      assert ops[..|ops|] == ops;
    }

    /** `window_count`, readable inside the borrow: right from the first change on. */
    method WindowCount() returns (n: nat)
      requires Valid()
      ensures n == count && (live ==> (n == |windows| <==> w.log.changed))
    {
      if live { CountMirrorsIffChanged(booted, trace); }
      n := count;
    }

    /** `window_index`. */
    method FindWindow(id: Id) returns (at: Option<nat>)
      ensures at == WindowIndex(windows, id)
    {
      var i := 0;
      while i < |windows|
        invariant 0 <= i <= |windows|
        invariant WindowIndex(windows, id) == Shift(WindowIndex(windows[i..], id), i)
      {
        if windows[i] == id {
          return Some(i);
        }
        IndexStep(windows, i, id);
        i := i + 1;
      }
      at := None;
    }

    /** Who gets the event. */
    method Target(id: Id, kind: Kind) returns (target: Option<nat>)
      ensures target == if live then Receiver(windows, id, kind) else None
    {
      if !live {
        return None;
      }
      target := FindWindow(id);
      if target.None? && kind == UserEvent && |windows| > 0 {
        target := Some(0);
      }
    }

    /** `dispatch_event_for`. `before` is the state the call finds; the machine has just begun the dispatch. */
    method DispatchEventFor(id: Id, kind: Kind, ghost before: World)
      requires Mirrors(before) && Reached() && !before.borrowed && w == Dispatch(before, id, kind)
      modifies this
      ensures Valid() && w.stack == before.stack && |pending| == 0 && live == old(live)
      ensures StartsWith(trace, old(trace)) && booted == old(booted)
      ensures Work() <= old(Work())
      decreases Work(), 2
    {
      BorrowMut();
      var target := Target(id, kind);
      if target.Some? {
        HandleEvent(before.stack);
      } else {
        Release();
      }
      ghost var handled := trace;
      FinishDispatch(before.stack);
      StartsThrough(old(trace), handled, trace);
    }

    /** The handler, to the end of its borrow. */
    method HandleEvent(ghost below: seq<Frame>)
      requires Valid() && InHandler(w) && Below(w) == below
      modifies this
      ensures Valid() && w.stack == below + [DevActions] && live == old(live)
      ensures StartsWith(trace, old(trace)) && booted == old(booted)
      ensures Work() <= old(Work())
    {
      Handle();
      Release();
      TookEnd();
    }

    /** The tail of a dispatch: the dev window's actions, then the window ops. */
    method FinishDispatch(ghost below: seq<Frame>)
      requires Valid() && w.stack == below + [DevActions]
      modifies this
      ensures Valid() && w.stack == below && |pending| == 0 && live == old(live)
      ensures StartsWith(trace, old(trace)) && booted == old(booted)
      ensures Work() <= old(Work())
      decreases Work(), 1
    {
      CallAppKit();
      ghost var served := trace;
      TookReturn();
      DrainPendingWindows();
    }

    /** An AppKit call: it may raise events before it returns, each dispatched to its end. */
    method CallAppKit()
      requires Valid() && AppKitRuns(w) && |w.stack| > 0
      modifies this
      ensures Valid() && w.stack == old(w).stack && live == old(live)
      ensures StartsWith(trace, old(trace)) && booted == old(booted)
      ensures Work() <= old(Work())
      decreases Work(), 0, 3
    {
      var busy := true;
      while busy && |script| > 0
        invariant Valid() && AppKitRuns(w) && w.stack == old(w).stack && live == old(live)
        invariant StartsWith(trace, old(trace)) && booted == old(booted)
        invariant Work() <= old(Work())
        modifies this
        decreases Work()
      {
        ghost var now := trace;
        busy := NextCallback();
        StartsThrough(old(trace), now, trace);
      }
    }

    /** AppKit's next choice. */
    method NextCallback() returns (busy: bool)
      requires Valid() && AppKitRuns(w) && |script| > 0
      modifies this
      ensures Valid() && w.stack == old(w).stack && live == old(live)
      ensures StartsWith(trace, old(trace)) && booted == old(booted)
      ensures Work() < old(Work())
      ensures busy == old(script)[0].Fire?
      ensures busy ==> StartsWith(trace, old(trace) + [Event(old(script)[0].id, old(script)[0].kind)])
      decreases Work(), 0, 0
    {
      var next := script[0];
      script := script[1..];
      busy := next.Fire?;
      if busy {
        FireEvent(next.id, next.kind);
        StartsThrough(old(trace), old(trace) + [Event(next.id, next.kind)], trace);
      }
    }

    /** AppKit raises one event. */
    method FireEvent(id: Id, kind: Kind)
      requires Valid() && AppKitRuns(w)
      modifies this
      ensures Valid() && w.stack == old(w).stack && |pending| == 0 && live == old(live)
      ensures StartsWith(trace, old(trace) + [Event(id, kind)]) && booted == old(booted)
      ensures Work() <= old(Work())
      decreases Work(), 3
    {
      ghost var before := w;
      TookEvent(id, kind);
      DispatchEventFor(id, kind, before);
    }

    /** The loop over the queue: it ends with the queue empty, however deep the calls back went. */
    method DrainPendingWindows()
      requires Valid() && Top(w) == Some(Drain)
      modifies this
      ensures Valid() && w.stack == Below(old(w)) && |pending| == 0 && live == old(live)
      ensures StartsWith(trace, old(trace)) && booted == old(booted)
      ensures Work() <= old(Work())
      decreases Work(), 0, 2
    {
      while |pending| > 0
        invariant Valid() && w.stack == old(w).stack && live == old(live)
        invariant StartsWith(trace, old(trace)) && booted == old(booted)
        invariant Work() <= old(Work())
        modifies this
        decreases Work()
      {
        ghost var now := trace;
        ApplyNext();
        StartsThrough(now, now + [PopOp], trace);
        StartsThrough(old(trace), now, trace);
      }
      ghost var drained := trace;
      TookPop();
      StartsThrough(old(trace), drained, trace);
    }

    /** One turn of the loop. */
    method ApplyNext()
      requires Valid() && Top(w) == Some(Drain) && |pending| > 0
      modifies this
      ensures Valid() && w.stack == old(w).stack && live == old(live)
      ensures StartsWith(trace, old(trace) + [PopOp]) && booted == old(booted)
      ensures Work() < old(Work())
      decreases Work(), 0, 1
    {
      var op := pending[0];
      match op
      case Open(id) => OpenNext(id);
      case PerformClose(id) => PerformCloseNext(id);
      case SetCaretRect(id, rect) => SetCaretRectNext(id, rect);
      case Close(id) => CloseNext(id);
    }

    /** The queue's head is gone; what the machine's `PopOp` has done besides is `Apply`. */
    method TakeHead() returns (op: Op)
      requires |pending| > 0
      modifies this`pending
      ensures op == old(pending)[0] && pending == old(pending)[1..]
    {
      op := pending[0];
      pending := pending[1..];
    }

    method OpenNext(id: Id)
      requires Valid() && Top(w) == Some(Drain) && |pending| > 0 && pending[0] == Open(id)
      modifies this
      ensures Valid() && w.stack == old(w).stack && live == old(live)
      ensures StartsWith(trace, old(trace) + [PopOp]) && booted == old(booted)
      ensures Work() < old(Work())
      decreases Work(), 0, 0
    {
      var op := TakeHead();
      TookPop();
      ghost var popped := trace;
      CallAppKit();
      ghost var served := trace;
      StoreWindow(id);
      StartsThrough(popped, served, trace);
    }

    /** The shown window joins the others, and the app is told. */
    method StoreWindow(id: Id)
      requires Valid() && Top(w) == Some(Showing(id))
      modifies this
      ensures Valid() && w.stack == Below(old(w)) && live == old(live)
      ensures StartsWith(trace, old(trace)) && booted == old(booted)
      ensures Work() <= old(Work())
      decreases Work(), 3
    {
      ghost var shown := w;
      BorrowMut();
      var added := live;
      if added {
        windows := windows + [id];
        count := |windows|;
      }
      Release();
      TookShow(id);
      if added {
        DispatchEventFor(id, WindowOpened, Stored(shown, id));
      }
    }

    /** AppKit's part of a close, whichever kind. */
    method ServeClose()
      requires Valid() && Top(w).Some? && (Top(w).value.PerformingClose? || Top(w).value.Closing?)
      modifies this
      ensures Valid() && w.stack == Below(old(w)) && live == old(live)
      ensures StartsWith(trace, old(trace)) && booted == old(booted)
      ensures Work() <= old(Work())
      decreases Work(), 1
    {
      CallAppKit();
      ghost var served := trace;
      TookReturn();
      StartsThrough(old(trace), served, trace);
    }

    method PerformCloseNext(id: Id)
      requires Valid() && Top(w) == Some(Drain) && |pending| > 0 && pending[0] == Op.PerformClose(id)
      modifies this
      ensures Valid() && w.stack == old(w).stack && live == old(live)
      ensures StartsWith(trace, old(trace) + [PopOp]) && booted == old(booted)
      ensures Work() < old(Work())
      decreases Work(), 0, 0
    {
      var op := TakeHead();
      var at: Option<nat> := None;
      BorrowMut();
      if live {
        at := FindWindow(id);
      }
      Release();
      TookPop();
      ghost var popped := trace;
      if at.Some? {
        ServeClose();
        StartsThrough(popped, popped, trace);
      }
    }

    method SetCaretRectNext(id: Id, rect: int)
      requires Valid() && Top(w) == Some(Drain) && |pending| > 0 && pending[0] == SetCaretRect(id, rect)
      modifies this
      ensures carets == if old(live) && id in old(windows) then old(carets)[id := rect] else old(carets)
      ensures Valid() && w.stack == old(w).stack && live == old(live)
      ensures StartsWith(trace, old(trace) + [PopOp]) && booted == old(booted)
      ensures Work() < old(Work())
    {
      var op := TakeHead();
      var at: Option<nat> := None;
      BorrowMut();
      if live {
        at := FindWindow(id);
      }
      if at.Some? {
        carets := carets[id := rect];
      }
      Release();
      TookPop();
    }

    /** The window leaves the state before AppKit hears of the close. */
    method TakeClosing(id: Id) returns (closing: bool)
      requires Valid() && Top(w) == Some(Drain) && |pending| > 0 && pending[0] == Op.Close(id)
      modifies this
      ensures Valid() && w == Next(old(w), PopOp) && trace == old(trace) + [PopOp]
      ensures live == old(live) && booted == old(booted) && Work() == old(Work()) - 1
      ensures closing <==> old(live) && id in old(windows)
    {
      var op := TakeHead();
      var at: Option<nat> := None;
      BorrowMut();
      if live {
        at := FindWindow(id);
      }
      if at.Some? {
        windows := Remove(windows, at.value);
        count := |windows|;
      }
      Release();
      TookPop();
      closing := at.Some?;
    }

    method CloseNext(id: Id)
      requires Valid() && Top(w) == Some(Drain) && |pending| > 0 && pending[0] == Op.Close(id)
      modifies this
      ensures Valid() && w.stack == old(w).stack && live == old(live)
      ensures StartsWith(trace, old(trace) + [PopOp]) && booted == old(booted)
      ensures Work() < old(Work())
      decreases Work(), 0, 0
    {
      var closing := TakeClosing(id);
      ghost var popped := trace;
      if closing {
        ServeClose();
        StartsThrough(popped, popped, trace);
      }
    }

    /** `nsapp.run()`, then the app state is dropped. */
    method RunLoop()
      requires Valid() && live && |w.stack| == 0
      modifies this
      ensures Valid() && !live && |windows| == 0 && |w.stack| == 0 && |script| == 0
      ensures StartsWith(trace, old(trace)) && booted == old(booted)
    {
      while |script| > 0
        invariant Valid() && live && |w.stack| == 0
        invariant StartsWith(trace, old(trace)) && booted == old(booted)
        modifies this
        decreases Work()
      {
        ghost var now := trace;
        var busy := NextCallback();
        StartsThrough(old(trace), now, trace);
      }
      live, windows := false, [];
      TookQuit();
    }
  }

  /** The state between a window's storing and its first event. */
  ghost function Stored(shown: World, id: Id): World {
    shown.(stack := Below(shown), windows := shown.windows + [id], count := |shown.windows| + 1,
           log := shown.log.(changed := true))
  }

  lemma {:induction false} StoringReturns(shown: World, id: Id)
    requires shown.live && !shown.panicked && !shown.borrowed && Top(shown) == Some(Showing(id))
    ensures Next(shown, Return) == Dispatch(Stored(shown, id), id, WindowOpened)
  {
  }

  lemma {:induction false} AskedOne(pending: seq<Op>, ops: seq<Op>, i: nat)
    requires i < |ops|
    ensures (pending + ops[..i]) + [ops[i]] == pending + ops[..i + 1]
  {
  }

  function Shift(at: Option<nat>, i: nat): Option<nat> {
    match at
    case None => None
    case Some(j) => Some(i + j)
  }

  lemma {:induction false} IndexStep(windows: seq<Id>, i: nat, id: Id)
    requires i < |windows| && windows[i] != id
    ensures WindowIndex(windows[i..], id) == Shift(WindowIndex(windows[i + 1..], id), 1)
  {
    assert windows[i..][1..] == windows[i + 1..];
  }
}

/** Safety of the window queue over every run. */
module WindowRuns {
  import opened Wrappers
  import opened WindowMachine

  /* ---------------------------------------------------------------- stacks */

  lemma {:induction false} ShownPush(stack: seq<Frame>, f: Frame)
    ensures Shown(stack + [f]) == Shown(stack) + if f.Showing? then [f.id] else []
  {
    assert (stack + [f])[..|stack|] == stack;
  }

  lemma {:induction false} OpenIdsPush(ops: seq<Op>, op: Op)
    ensures OpenIds(ops + [op]) == OpenIds(ops) + if op.Open? then [op.id] else []
    ensures CloseIds(ops + [op]) == CloseIds(ops) + if op.Close? then [op.id] else []
  {
    assert (ops + [op])[..|ops|] == ops;
  }

  lemma {:induction false} NestedPush(stack: seq<Frame>, f: Frame)
    requires Nested(stack) && (|stack| > 0 ==> !stack[|stack| - 1].Handler?)
    requires OpFrame(f) ==> |stack| > 0 && stack[|stack| - 1] == Drain
    ensures Nested(stack + [f])
  {
    var r := stack + [f];
    forall i | 0 <= i < |r|
      ensures (r[i].Handler? ==> i == |r| - 1) && (OpFrame(r[i]) ==> i > 0 && r[..i][i - 1] == Drain)
    {
      if i < |stack| { assert r[i] == stack[i] && r[..i] == stack[..i]; }
    }
  }

  lemma {:induction false} NestedPop(stack: seq<Frame>)
    requires Nested(stack) && |stack| > 0
    ensures Nested(stack[..|stack| - 1])
    ensures |stack| > 1 ==> !stack[|stack| - 2].Handler?
    ensures OpFrame(stack[|stack| - 1]) ==> |stack| > 1 && stack[|stack| - 2] == Drain
  {
    var k := |stack| - 1;
    var r := stack[..k];
    forall i | 0 <= i < |r|
      ensures (r[i].Handler? ==> i == |r| - 1) && (OpFrame(r[i]) ==> i > 0 && r[..i][i - 1] == Drain)
    {
      assert r[i] == stack[i] && r[..i] == stack[..i];
    }
    assert k > 0 ==> stack[k - 1] == stack[..k][k - 1];
  }

  /** The top frame replaced by `f`. */
  lemma {:induction false} Replaced(stack: seq<Frame>, f: Frame)
    requires Nested(stack) && |stack| > 0 && !OpFrame(f) && !f.Handler?
    requires !stack[|stack| - 1].Showing?
    ensures Nested(stack[..|stack| - 1] + [f]) && Shown(stack[..|stack| - 1] + [f]) == Shown(stack)
  {
    NestedPop(stack);
    NestedPush(stack[..|stack| - 1], f);
    ShownPush(stack[..|stack| - 1], f);
    assert Shown(stack) == Shown(stack[..|stack| - 1]) + [];
  }

  /* ---------------------------------------------------------------- one step */

  /** Everything `Dispatch` needs and keeps; `Drained` is not needed before it. */
  ghost predicate Ready(w: World) {
    Guarded(w) && !w.borrowed && Conserved(w) && Accounted(w) && Counted(w)
  }

  lemma {:induction false} NotInHandler(w: World)
    requires Guarded(w) && !w.borrowed
    ensures |w.stack| > 0 ==> !w.stack[|w.stack| - 1].Handler?
  {
  }

  /** A frame on top of one that is not a handler. */
  lemma {:induction false} Pushed(w: World, w': World, f: Frame)
    requires Guarded(w) && !w.borrowed && w'.stack == w.stack + [f] && !w'.panicked
    requires OpFrame(f) ==> Top(w) == Some(Drain)
    requires w'.borrowed <==> f.Handler?
    ensures Guarded(w') && Shown(w'.stack) == Shown(w.stack) + if f.Showing? then [f.id] else []
  {
    NotInHandler(w);
    NestedPush(w.stack, f);
    ShownPush(w.stack, f);
  }

  lemma {:induction false} DispatchKeepsInv(w: World, id: Id, kind: Kind)
    requires Ready(w)
    ensures Inv(Dispatch(w, id, kind))
  {
    match (if w.live then Receiver(w.windows, id, kind) else None)
    case None =>
      Pushed(w, Dispatch(w, id, kind), DevActions);
      SameAccounts(w, Dispatch(w, id, kind));
    case Some(i) =>
      Pushed(w, Dispatch(w, id, kind), Handler(w.windows[i]));
      SameAccounts(w, Dispatch(w, id, kind));
  }

  lemma {:induction false} CountPush(s: seq<Id>, y: Id, x: Id)
    ensures Count(s + [y], x) == Count(s, x) + if y == x then 1 else 0
  {
    assert (s + [y])[..|s|] == s;
  }

  lemma {:induction false} CountConcat(a: seq<Id>, b: seq<Id>, x: Id)
    ensures Count(a + b, x) == Count(a, x) + Count(b, x)
    decreases |b|
  {
    if |b| == 0 {
      assert a + b == a;
    } else {
      var k := |b| - 1;
      CountConcat(a, b[..k], x);
      CountPush(a + b[..k], b[k], x);
      assert a + b == (a + b[..k]) + [b[k]];
    }
  }

  lemma {:induction false} CountRemove(windows: seq<Id>, i: nat, x: Id)
    requires i < |windows|
    ensures Count(windows, x) == Count(Remove(windows, i), x) + if windows[i] == x then 1 else 0
  {
    assert windows == (windows[..i] + [windows[i]]) + windows[i + 1..];
    CountConcat(windows[..i] + [windows[i]], windows[i + 1..], x);
    CountPush(windows[..i], windows[i], x);
    CountConcat(windows[..i], windows[i + 1..], x);
  }

  lemma {:induction false} SameAccounts(w: World, u: World)
    requires Accounted(w) && u.windows == w.windows && Shown(u.stack) == Shown(w.stack)
    requires u.log.closed == w.log.closed && u.log.missed == w.log.missed && u.log.dropped == w.log.dropped
    requires OpenIds(u.log.popped) == OpenIds(w.log.popped) && CloseIds(u.log.popped) == CloseIds(w.log.popped)
    ensures Accounted(u)
  {
    forall x ensures AccountedFor(u, x) {
      assert AccountedFor(w, x);
    }
  }

  /** A window that was shown is stored. */
  lemma {:induction false} StoredAccounted(w: World, u: World, id: Id)
    requires Accounted(w) && Shown(w.stack) == Shown(u.stack) + [id]
    requires u.log == w.log.(changed := true) && u.windows == w.windows + [id]
    ensures Accounted(u)
  {
    forall x ensures AccountedFor(u, x) {
      assert AccountedFor(w, x);
      CountPush(w.windows, id, x);
      CountPush(Shown(u.stack), id, x);
    }
  }

  /** A window that was shown has no app to go to. */
  lemma {:induction false} DroppedAccounted(w: World, u: World, id: Id)
    requires Accounted(w) && Shown(w.stack) == Shown(u.stack) + [id] && u.windows == w.windows
    requires u.log == w.log.(dropped := w.log.dropped + [id])
    ensures Accounted(u)
  {
    forall x ensures AccountedFor(u, x) {
      assert AccountedFor(w, x);
      CountPush(w.log.dropped, id, x);
      CountPush(Shown(u.stack), id, x);
    }
  }

  lemma {:induction false} StoreKeepsInv(w: World)
    requires Inv(w) && Top(w).Some? && Top(w).value.Showing?
    ensures Inv(Next(w, Return))
  {
    var id := Top(w).value.id;
    var v := w.(stack := Below(w));
    NestedPop(w.stack);
    if w.live {
      var windows := w.windows + [id];
      var u := v.(windows := windows, count := |windows|, log := w.log.(changed := true));
      StoredAccounted(w, u, id);
      DispatchKeepsInv(u, id, WindowOpened);
    } else {
      DroppedAccounted(w, Next(w, Return), id);
    }
  }

  /** The queue's head moves to the history. */
  lemma {:induction false} HeadMoves(popped: seq<Op>, pending: seq<Op>)
    requires |pending| > 0
    ensures popped + pending == (popped + [pending[0]]) + pending[1..]
  {
    assert pending == [pending[0]] + pending[1..];
  }

  lemma {:induction false} PopOpenAccounted(w: World)
    requires Guarded(w) && Accounted(w) && Top(w) == Some(Drain) && |w.pending| > 0 && w.pending[0].Open?
    ensures Accounted(Popped(w))
  {
    var op := w.pending[0];
    OpenIdsPush(w.log.popped, op);
    ShownPush(w.stack, Showing(op.id));
    OpenAccounted(w, Popped(w), op.id);
  }

  lemma {:induction false} PopCloseAccounted(w: World)
    requires Guarded(w) && Accounted(w) && Top(w) == Some(Drain) && |w.pending| > 0 && w.pending[0].Close?
    ensures Accounted(Popped(w))
  {
    var op := w.pending[0];
    OpenIdsPush(w.log.popped, op);
    ShownPush(w.stack, Closing(op.id));
    CloseAccounted(w, Popped(w), op.id);
  }

  lemma {:induction false} PopOtherAccounted(w: World)
    requires Guarded(w) && Accounted(w) && Top(w) == Some(Drain) && |w.pending| > 0
    requires !w.pending[0].Open? && !w.pending[0].Close?
    ensures Accounted(Popped(w))
  {
    var op := w.pending[0];
    OpenIdsPush(w.log.popped, op);
    ShownPush(w.stack, PerformingClose(op.id));
    SameAccounts(w, Popped(w));
  }

  lemma {:induction false} PopKeepsAccounted(w: World)
    requires Guarded(w) && Accounted(w) && Top(w) == Some(Drain) && |w.pending| > 0
    ensures Accounted(Popped(w))
  {
    if w.pending[0].Open? {
      PopOpenAccounted(w);
    } else if w.pending[0].Close? {
      PopCloseAccounted(w);
    } else {
      PopOtherAccounted(w);
    }
  }

  lemma {:induction false} OpenAccounted(w: World, u: World, id: Id)
    requires Accounted(w) && u.windows == w.windows && Shown(u.stack) == Shown(w.stack) + [id]
    requires OpenIds(u.log.popped) == OpenIds(w.log.popped) + [id] && CloseIds(u.log.popped) == CloseIds(w.log.popped)
    requires u.log.closed == w.log.closed && u.log.missed == w.log.missed && u.log.dropped == w.log.dropped
    ensures Accounted(u)
  {
    forall x ensures AccountedFor(u, x) {
      assert AccountedFor(w, x);
      CountPush(Shown(w.stack), id, x);
      CountPush(OpenIds(w.log.popped), id, x);
    }
  }

  /** A Close either moves one window to the closed ones or is recorded as missing. */
  lemma {:induction false} CloseAccounted(w: World, u: World, id: Id)
    requires Accounted(w) && Shown(u.stack) == Shown(w.stack)
    requires OpenIds(u.log.popped) == OpenIds(w.log.popped) && CloseIds(u.log.popped) == CloseIds(w.log.popped) + [id]
    requires u.log.dropped == w.log.dropped
    requires
      if w.live && WindowIndex(w.windows, id).Some? then
        u.windows == Remove(w.windows, WindowIndex(w.windows, id).value)
        && u.log.closed == w.log.closed + [id] && u.log.missed == w.log.missed
      else u.windows == w.windows && u.log.closed == w.log.closed && u.log.missed == w.log.missed + [id]
    ensures Accounted(u)
  {
    forall x ensures AccountedFor(u, x) {
      assert AccountedFor(w, x);
      CountPush(CloseIds(w.log.popped), id, x);
      CountPush(w.log.closed, id, x);
      CountPush(w.log.missed, id, x);
      if w.live && WindowIndex(w.windows, id).Some? { CountRemove(w.windows, WindowIndex(w.windows, id).value, x); }
    }
  }

  lemma {:induction false} PopKeepsGuarded(w: World)
    requires Inv(w) && Top(w) == Some(Drain) && |w.pending| > 0
    ensures Guarded(Popped(w)) && Conserved(Popped(w)) && |Popped(w).stack| > 0
  {
    var op, w' := w.pending[0], Popped(w);
    HeadMoves(w.log.popped, w.pending);
    if |w'.stack| > |w.stack| {
      Pushed(w, w', w'.stack[|w.stack|]);
    }
  }

  lemma {:induction false} PopKeepsCounted(w: World)
    requires Inv(w) && Top(w) == Some(Drain) && |w.pending| > 0
    ensures Counted(Popped(w))
  {
  }

  lemma {:induction false} EndKeepsInv(w: World)
    requires Inv(w) && InHandler(w)
    ensures Inv(Next(w, EndHandler))
  {
    Replaced(w.stack, DevActions);
    SameAccounts(w, Next(w, EndHandler));
  }

  lemma {:induction false} ReturnKeepsInv(w: World)
    requires Inv(w) && Top(w).Some?
    ensures Inv(Next(w, Return))
  {
    var f := Top(w).value;
    if f.Showing? {
      StoreKeepsInv(w);
    } else if f.DevActions? {
      Replaced(w.stack, Drain);
      SameAccounts(w, Next(w, Return));
    } else if OpFrame(f) {
      PopFrameKeepsInv(w);
    }
  }

  /** A frame that shows no window goes, and its caller is no handler. */
  lemma {:induction false} PopFrameKeepsInv(w: World)
    requires Inv(w) && Top(w).Some? && !Top(w).value.Showing? && !Top(w).value.Handler?
    requires OpFrame(Top(w).value) || |w.pending| == 0
    ensures Inv(w.(stack := Below(w)))
  {
    NestedPop(w.stack);
    assert Shown(w.stack) == Shown(Below(w)) + [];
    SameAccounts(w, w.(stack := Below(w)));
  }

  lemma {:induction false} EnqueueKeepsInv(w: World, op: Op)
    requires Inv(w) && InHandler(w)
    ensures Inv(Next(w, Enqueue(op)))
  {
    assert (w.log.popped + w.pending) + [op] == w.log.popped + (w.pending + [op]);
    SameAccounts(w, Next(w, Enqueue(op)));
  }

  lemma {:induction false} QuitKeepsInv(w: World)
    requires Inv(w) && |w.stack| == 0 && w.live
    ensures Inv(Next(w, Quit))
  {
    var u := Next(w, Quit);
    forall x ensures AccountedFor(u, x) {
      assert AccountedFor(w, x);
      CountConcat(w.log.dropped, w.windows, x);
    }
  }

  lemma {:induction false} PopKeepsInv(w: World)
    requires Inv(w) && Top(w) == Some(Drain)
    ensures Inv(Next(w, PopOp))
  {
    if |w.pending| == 0 {
      PopFrameKeepsInv(w);
    } else {
      PopKeepsGuarded(w);
      PopKeepsAccounted(w);
      PopKeepsCounted(w);
      assert Popped(w).log.events == w.log.events;
    }
  }

  lemma {:induction false} StepKeepsInv(w: World, step: Step)
    requires Inv(w)
    ensures Inv(Next(w, step))
  {
    match step
    case Event(id, kind) => if AppKitRuns(w) { DispatchKeepsInv(w, id, kind); }
    case Enqueue(op) => if InHandler(w) { EnqueueKeepsInv(w, op); }
    case EndHandler => if InHandler(w) { EndKeepsInv(w); }
    case Return => if Top(w).Some? { ReturnKeepsInv(w); }
    case PopOp => if Top(w) == Some(Drain) { PopKeepsInv(w); }
    case Quit => if |w.stack| == 0 && w.live { QuitKeepsInv(w); }
  }

  /* ---------------------------------------------------------------- whole runs */

  lemma {:induction false} RunPush(w: World, steps: seq<Step>, step: Step)
    ensures Run(w, steps + [step]) == Next(Run(w, steps), step)
  {
    assert (steps + [step])[..|steps + [step]| - 1] == steps;
  }

  lemma {:induction false} BootHolds(asked: seq<Op>)
    ensures Inv(Boot(asked))
  {
    var w := Boot(asked);
    assert asked == [] + asked;
    forall x ensures AccountedFor(w, x) {
      CountPush([], FIRST_WINDOW_ID, x);
      assert [] + [FIRST_WINDOW_ID] == [FIRST_WINDOW_ID];
    }
  }

  lemma {:induction false} RunKeepsInv(asked: seq<Op>, steps: seq<Step>)
    ensures Inv(Run(Boot(asked), steps))
  {
    if |steps| == 0 {
      BootHolds(asked);
    } else {
      RunKeepsInv(asked, steps[..|steps| - 1]);
      StepKeepsInv(Run(Boot(asked), steps[..|steps| - 1]), steps[|steps| - 1]);
    }
  }

  /** Whatever AppKit calls back, and however deep: APP_STATE is never borrowed twice. */
  lemma {:induction false} NeverBorrowedTwice(asked: seq<Op>, steps: seq<Step>)
    ensures !Run(Boot(asked), steps).panicked
  {
    RunKeepsInv(asked, steps);
  }

  /** Ops are popped in the order they were queued, each once; none is left when the thread is back in the run loop. */
  lemma {:induction false} OpsPoppedOnceInOrder(asked: seq<Op>, steps: seq<Step>)
    ensures
      var w := Run(Boot(asked), steps);
      w.log.enqueued == w.log.popped + w.pending
      && (|w.stack| == 0 && w.log.events > 0 ==> w.log.popped == w.log.enqueued)
  {
    RunKeepsInv(asked, steps);
    var w := Run(Boot(asked), steps);
    if |w.stack| == 0 && w.log.events > 0 { assert w.log.popped + [] == w.log.popped; }
  }

  /** What the app asks for while it boots waits for the first event: boot itself drains nothing. */
  lemma {:induction false} BootOpsWait(asked: seq<Op>, steps: seq<Step>)
    requires Run(Boot(asked), steps).log.events == 0
    ensures Run(Boot(asked), steps).pending == Run(Boot(asked), steps).log.enqueued
  {
    RunKeepsInv(asked, steps);
    var w := Run(Boot(asked), steps);
    assert [] + w.pending == w.pending;
  }

  /** The count is right from the first window stored or removed on, and wrong before: 0 with one window. */
  lemma {:induction false} CountMirrorsIffChanged(asked: seq<Op>, steps: seq<Step>)
    requires Run(Boot(asked), steps).live
    ensures
      var w := Run(Boot(asked), steps);
      (w.count == |w.windows| <==> w.log.changed) && (!w.log.changed ==> w.count == 0 && |w.windows| == 1)
  {
    RunKeepsInv(asked, steps);
  }

  /** A handler starts exactly if the addressee is open, or the event is a wake and any window is. */
  lemma {:induction false} WakeReachesTheApp(asked: seq<Op>, steps: seq<Step>, id: Id, kind: Kind)
    requires AppKitRuns(Run(Boot(asked), steps))
    ensures
      var w := Run(Boot(asked), steps);
      var w' := Next(w, Event(id, kind));
      && (InHandler(w') <==> w.live && (id in w.windows || (kind == UserEvent && |w.windows| > 0)))
      && (InHandler(w') ==> Top(w').value.id in w.windows && (id in w.windows ==> Top(w').value.id == id))
      && (InHandler(w') && id !in w.windows ==> Top(w').value.id == w.windows[0])
  {
    RunKeepsInv(asked, steps);
  }

  /* ---------------------------------------------------------------- what a step may change */

  /** The op the drain loop takes next. */
  ghost predicate Pops(w: World, step: Step, op: Op) {
    step.PopOp? && Top(w) == Some(Drain) && |w.pending| > 0 && w.pending[0] == op
  }

  /** A caret moves only by a request for a window that is open, and then it is the one requested. */
  lemma {:induction false} CaretsMoveOnRequest(w: World, step: Step)
    requires Inv(w)
    ensures var w' := Next(w, step);
            if exists id, rect :: Pops(w, step, SetCaretRect(id, rect)) && w.live && id in w.windows then
              w'.carets == w.carets[w.pending[0].id := w.pending[0].rect] && w'.windows == w.windows
            else w'.carets == w.carets
  {
    if id, rect :| Pops(w, step, SetCaretRect(id, rect)) && w.live && id in w.windows {
      assert w.pending[0] == SetCaretRect(id, rect);
    } else if step.PopOp? && Top(w) == Some(Drain) && |w.pending| > 0 && w.pending[0].SetCaretRect? {
      assert Pops(w, step, SetCaretRect(w.pending[0].id, w.pending[0].rect));
    }
  }

  /** `after` is `before` without its first `id`. */
  ghost predicate TakesOut(before: seq<Id>, after: seq<Id>, id: Id) {
    exists a: seq<Id>, b: seq<Id> :: before == a + [id] + b && after == a + b && id !in a
  }

  lemma {:induction false} RemoveTakesOut(windows: seq<Id>, i: nat)
    requires i < |windows| && windows[i] !in windows[..i]
    ensures TakesOut(windows, Remove(windows, i), windows[i])
  {
    assert windows == windows[..i] + [windows[i]] + windows[i + 1..];
  }

  lemma {:induction false} PopKeepsOrder(w: World)
    requires Top(w) == Some(Drain) && |w.pending| > 0
    ensures
      var w' := Popped(w);
      || w'.windows == w.windows
      || (w.live && w.pending[0].Close? && TakesOut(w.windows, w'.windows, w.pending[0].id)
          && w'.count == |w'.windows|)
  {
    var at := WindowIndex(w.windows, w.pending[0].id);
    if w.live && w.pending[0].Close? && at.Some? { RemoveTakesOut(w.windows, at.value); }
  }

  lemma {:induction false} ReturnKeepsOrder(w: World)
    requires Top(w).Some?
    ensures
      var w' := Returned(w);
      || w'.windows == w.windows
      || (Top(w).value.Showing? && w.live && w'.windows == w.windows + [Top(w).value.id]
          && w'.count == |w.windows| + 1)
  {
  }

  /** The windows stay in the order they were stored: a new one goes last, and a Close takes just its own out. */
  lemma {:induction false} WindowsKeepTheirOrder(w: World, step: Step)
    ensures
      var w' := Next(w, step);
      || w'.windows == w.windows
      || (step.Return? && Top(w).Some? && Top(w).value.Showing? && w.live
          && w'.windows == w.windows + [Top(w).value.id] && w'.count == |w.windows| + 1)
      || (step.PopOp? && Top(w) == Some(Drain) && |w.pending| > 0 && w.live && w.pending[0].Close?
          && TakesOut(w.windows, w'.windows, w.pending[0].id) && w'.count == |w'.windows|)
      || (step.Quit? && |w.stack| == 0 && |w'.windows| == 0 && !w'.live)
  {
    if step.PopOp? && Top(w) == Some(Drain) && |w.pending| > 0 {
      PopKeepsOrder(w);
    } else if step.Return? && Top(w).Some? {
      ReturnKeepsOrder(w);
    }
  }

  /** A shown window is stored and at once told that it is open, and nothing else is delivered. */
  lemma {:induction false} ShownIsAnnounced(w: World, id: Id)
    requires Inv(w) && Top(w) == Some(Showing(id)) && w.live
    ensures
      var w' := Next(w, Return);
      && id in w'.windows && w'.log.delivered == w.log.delivered + [(id, WindowOpened, id)]
      && w'.stack == Below(w) + [Handler(id)] && w'.borrowed
  {
    NestedPop(w.stack);
    assert (w.windows + [id])[|w.windows|] == id;
  }

  /** A handler is followed by the dev window's own actions and then by the drain loop, with the borrow released. */
  lemma {:induction false} HandlerThenDrain(w: World)
    requires Inv(w) && InHandler(w)
    ensures
      var ended, draining := Next(w, EndHandler), Next(Next(w, EndHandler), Return);
      && ended.stack == Below(w) + [DevActions] && !ended.borrowed && AppKitRuns(ended)
      && draining.stack == Below(w) + [Drain] && !draining.borrowed && draining.pending == w.pending
  {
  }

  /** What AppKit reports is delivered under its own id and kind, to one receiver or to none. */
  lemma {:induction false} EventIsDelivered(w: World, id: Id, kind: Kind)
    requires Inv(w) && AppKitRuns(w)
    ensures
      var w' := Next(w, Event(id, kind));
      if InHandler(w') then w'.log.delivered == w.log.delivered + [(id, kind, Top(w').value.id)]
      else w'.log.delivered == w.log.delivered && w'.stack == w.stack + [DevActions]
  {
  }

  /** A PerformClose only asks AppKit, and only about a window that is open. */
  lemma {:induction false} PerformCloseAsks(w: World, id: Id)
    requires Inv(w) && Pops(w, PopOp, PerformClose(id))
    ensures
      var w' := Next(w, PopOp);
      && w'.stack == (if w.live && id in w.windows then w.stack + [PerformingClose(id)] else w.stack)
      && w'.windows == w.windows && w'.count == w.count && w'.pending == w.pending[1..]
      && w'.log.closed == w.log.closed && w'.log.missed == w.log.missed
  {
  }

  /* ---------------------------------------------------------------- fresh ids */

  ghost predicate Distinct(s: seq<Id>) {
    forall i, j :: 0 <= i < j < |s| ==> s[i] != s[j]
  }

  lemma {:induction false} Held(s: seq<Id>, x: Id)
    ensures Count(s, x) > 0 <==> x in s
  {
    if |s| > 0 {
      Held(s[..|s| - 1], x);
      assert s == s[..|s| - 1] + [s[|s| - 1]];
    }
  }

  lemma {:induction false} DistinctCounts(s: seq<Id>, x: Id)
    requires Distinct(s)
    ensures Count(s, x) <= 1
  {
    if |s| > 0 {
      DistinctCounts(s[..|s| - 1], x);
      Held(s[..|s| - 1], s[|s| - 1]);
    }
  }

  lemma {:induction false} CountsDistinct(s: seq<Id>)
    requires forall x :: Count(s, x) <= 1
    ensures Distinct(s)
  {
    if |s| > 0 {
      var init, last := s[..|s| - 1], s[|s| - 1];
      forall x ensures Count(init, x) <= 1 {
        assert Count(s, x) <= 1;
      }
      CountsDistinct(init);
      assert Count(s, last) <= 1;
      Held(init, last);
      forall i, j | 0 <= i < j < |s| ensures s[i] != s[j] {
        if j == |s| - 1 { assert s[i] == init[i]; } else { assert s[i] == init[i] && s[j] == init[j]; }
      }
    }
  }

  /** No id is asked for twice, and none is the boot window's. */
  ghost predicate FreshIds(ops: seq<Op>) {
    Distinct([FIRST_WINDOW_ID] + OpenIds(ops))
  }

  lemma {:induction false} OpenIdsConcat(a: seq<Op>, b: seq<Op>)
    ensures OpenIds(a + b) == OpenIds(a) + OpenIds(b)
  {
    if |b| == 0 {
      assert a + b == a && OpenIds(b) == [];
    } else {
      var k := |b| - 1;
      OpenIdsConcat(a, b[..k]);
      assert (a + b)[..|a + b| - 1] == a + b[..k];
    }
  }

  lemma {:induction false} FreshCounts(popped: seq<Op>, pending: seq<Op>, x: Id)
    requires FreshIds(popped + pending)
    ensures (if x == FIRST_WINDOW_ID then 1 else 0) + Count(OpenIds(popped), x)
            == if x == FIRST_WINDOW_ID || x in OpenIds(popped) then 1 else 0
  {
    var first := [FIRST_WINDOW_ID];
    OpenIdsConcat(popped, pending);
    DistinctCounts(first + OpenIds(popped + pending), x);
    CountConcat(first, OpenIds(popped + pending), x);
    CountConcat(OpenIds(popped), OpenIds(pending), x);
    CountPush([], FIRST_WINDOW_ID, x);
    assert [] + first == first;
    Held(OpenIds(popped), x);
  }

  /** With fresh ids, each id is in one place at most. */
  lemma {:induction false} OnePlace(asked: seq<Op>, steps: seq<Step>, x: Id)
    requires FreshIds(Run(Boot(asked), steps).log.enqueued)
    ensures
      var w := Run(Boot(asked), steps);
      Count(w.windows, x) + Count(Shown(w.stack), x) + Count(w.log.closed, x) + Count(w.log.dropped, x)
      == if x == FIRST_WINDOW_ID || x in OpenIds(w.log.popped) then 1 else 0
  {
    var w := Run(Boot(asked), steps);
    RunKeepsInv(asked, steps);
    assert AccountedFor(w, x);
    FreshCounts(w.log.popped, w.pending, x);
  }

  lemma {:induction false} WindowsStayDistinct(asked: seq<Op>, steps: seq<Step>)
    requires FreshIds(Run(Boot(asked), steps).log.enqueued)
    ensures Distinct(Run(Boot(asked), steps).windows)
  {
    var w := Run(Boot(asked), steps);
    forall x ensures Count(w.windows, x) <= 1 {
      OnePlace(asked, steps, x);
    }
    CountsDistinct(w.windows);
  }

  /** A popped Close, seen from the window's places. */
  ghost predicate CloseMeans(w: World, id: Id) {
    var w' := Next(w, PopOp);
    var effective := id !in Shown(w.stack) && id !in w.log.closed;
    && id !in w'.windows
    && (effective <==> id in w.windows)
    && (if effective then
          w'.log.closed == w.log.closed + [id]
          && forall x :: Count(w'.windows, x) == if x == id then 0 else Count(w.windows, x)
        else w'.windows == w.windows && w'.log.closed == w.log.closed)
  }

  /**
   A Close of a window that was opened earlier in the queue takes effect exactly if that window
   is neither still being shown nor closed already. Otherwise it changes no window.
   */
  lemma {:induction false} CloseTakesEffectIff(asked: seq<Op>, steps: seq<Step>, id: Id)
    requires
      var w := Run(Boot(asked), steps);
      && w.live && Top(w) == Some(Drain) && |w.pending| > 0 && w.pending[0] == Op.Close(id)
      && FreshIds(w.log.enqueued) && (id == FIRST_WINDOW_ID || id in OpenIds(w.log.popped))
    ensures CloseMeans(Run(Boot(asked), steps), id)
  {
    var w := Run(Boot(asked), steps);
    RunKeepsInv(asked, steps);
    OnePlace(asked, steps, id);
    Held(w.windows, id);
    Held(Shown(w.stack), id);
    Held(w.log.closed, id);
    CloseApplies(w, id);
  }

  lemma {:induction false} CloseApplies(w: World, id: Id)
    requires Inv(w) && w.live && Top(w) == Some(Drain) && |w.pending| > 0 && w.pending[0] == Op.Close(id)
    requires Count(w.windows, id) <= 1 && Count(w.log.dropped, id) == 0
    requires id in w.windows <==> id !in Shown(w.stack) && id !in w.log.closed
    ensures CloseMeans(w, id)
  {
    var at := WindowIndex(w.windows, id);
    if at.Some? {
      var after := Remove(w.windows, at.value);
      forall x ensures Count(after, x) == if x == id then 0 else Count(w.windows, x) {
        Held(w.windows, id);
        CountRemove(w.windows, at.value, x);
      }
      Held(after, id);
    }
  }

  /** Back in the run loop: every window asked for is open unless a Close took it, and only Closes do. */
  lemma {:induction false} IdleAccount(asked: seq<Op>, steps: seq<Step>, id: Id)
    requires var w := Run(Boot(asked), steps); w.live && |w.stack| == 0 && w.log.events > 0
    ensures
      var w := Run(Boot(asked), steps);
      && Count(w.windows, id) + Count(w.log.closed, id)
         == (if id == FIRST_WINDOW_ID then 1 else 0) + Count(OpenIds(w.log.enqueued), id)
      && Count(w.log.closed, id) <= Count(CloseIds(w.log.enqueued), id)
  {
    RunKeepsInv(asked, steps);
    OpsPoppedOnceInOrder(asked, steps);
    assert AccountedFor(Run(Boot(asked), steps), id);
  }
}

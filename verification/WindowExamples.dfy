/**
 Effects need not end in the order in which their ops were queued. A window is stored only after
 AppKit has shown it, and while it is being shown AppKit may raise events; their handlers may ask to
 close the very window, and the drain loop at the end of such a nested dispatch pops that Close
 before the outer loop has stored the window. The run below is the shortest of this kind.
 */
module WindowExamples {
  import opened Wrappers
  import opened WindowMachine
  import opened WindowRuns

  function RunOn(w: World, steps: seq<Step>): World
    decreases |steps|
  {
    if |steps| == 0 then w else RunOn(Next(w, steps[0]), steps[1..])
  }

  lemma {:induction false} RunOnIsRun(w: World, a: seq<Step>, b: seq<Step>)
    ensures RunOn(Run(w, a), b) == Run(w, a + b)
    decreases |b|
  {
    if |b| == 0 {
      assert a + b == a;
    } else {
      RunPush(w, a, b[0]);
      RunOnIsRun(w, a + [b[0]], b[1..]);
      HeadOver(a, b);
    }
  }

  lemma {:induction false} HeadOver(a: seq<Step>, b: seq<Step>)
    requires |b| > 0
    ensures (a + [b[0]]) + b[1..] == a + b
  {
  }

  /** AppKit tells window 1 something; its handler asks for one thing; a drain loop starts. */
  function Ask(op: Op): seq<Step> {
    [Event(1, OtherEvent), Enqueue(op), EndHandler, Return]
  }

  /** Window 2 has been shown and is stored. */
  function ShowTwo(): seq<Step> {
    [Return, EndHandler, Return, PopOp, PopOp]
  }

  lemma {:induction false} RunOne(w: World, a: Step, rest: seq<Step>)
    ensures RunOn(w, [a] + rest) == RunOn(Next(w, a), rest)
  {
    assert ([a] + rest)[1..] == rest;
  }

  lemma {:induction false} RunFour(w: World, a: Step, b: Step, c: Step, d: Step)
    ensures RunOn(w, [a, b, c, d]) == Next(Next(Next(Next(w, a), b), c), d)
  {
    assert [a] + [b, c, d] == [a, b, c, d] && [b] + [c, d] == [b, c, d] && [c] + [d] == [c, d] && [d] + [] == [d];
    RunOne(w, a, [b, c, d]);
    RunOne(Next(w, a), b, [c, d]);
    RunOne(Next(Next(w, a), b), c, [d]);
    RunOne(Next(Next(Next(w, a), b), c), d, []);
  }

  /** Window 1 is open and nothing waits. */
  function World1(stack: seq<Frame>, pending: seq<Op>, log: Log): World {
    World(true, false, false, [1], 0, pending, map[], stack, log)
  }

  function Heard(log: Log): Log {
    log.(events := log.events + 1, delivered := log.delivered + [(1, OtherEvent, 1)])
  }

  lemma {:induction false} Hears(stack: seq<Frame>, log: Log)
    requires |stack| == 0 || stack[|stack| - 1].Showing?
    ensures Next(World1(stack, [], log), Event(1, OtherEvent))
            == World1(stack + [Handler(1)], [], Heard(log)).(borrowed := true)
  {
    assert WindowIndex([1], 1) == Some(0);
  }

  lemma {:induction false} Asks(stack: seq<Frame>, log: Log, op: Op)
    ensures Next(World1(stack + [Handler(1)], [], log).(borrowed := true), Enqueue(op))
            == World1(stack + [Handler(1)], [op], log.(enqueued := log.enqueued + [op])).(borrowed := true)
  {
    assert [] + [op] == [op];
  }

  lemma {:induction false} Ends(stack: seq<Frame>, pending: seq<Op>, log: Log)
    ensures Next(World1(stack + [Handler(1)], pending, log).(borrowed := true), EndHandler)
            == World1(stack + [DevActions], pending, log)
    ensures Next(World1(stack + [DevActions], pending, log), Return) == World1(stack + [Drain], pending, log)
  {
    assert (stack + [Handler(1)])[..|stack|] == stack && (stack + [DevActions])[..|stack|] == stack;
  }

  lemma {:induction false} AskedOf1(stack: seq<Frame>, log: Log, op: Op)
    requires |stack| == 0 || stack[|stack| - 1].Showing?
    ensures
      RunOn(World1(stack, [], log), Ask(op))
      == World1(stack + [Drain], [op], Heard(log).(enqueued := log.enqueued + [op]))
  {
    Hears(stack, log);
    Asks(stack, Heard(log), op);
    Ends(stack, [op], Heard(log).(enqueued := log.enqueued + [op]));
    RunFour(World1(stack, [], log), Event(1, OtherEvent), Enqueue(op), EndHandler, Return);
  }

  function Showing2(log: Log): World {
    World1([Drain, Showing(2)], [], log)
  }

  lemma {:induction false} OpensTwo(log: Log)
    ensures RunOn(World1([Drain], [Open(2)], log), [PopOp]) == Showing2(log.(popped := log.popped + [Open(2)]))
  {
    RunOne(World1([Drain], [Open(2)], log), PopOp, []);
    assert [PopOp] + [] == [PopOp] && [Drain] + [Showing(2)] == [Drain, Showing(2)];
  }

  /** The nested loop pops the Close, finds no window 2, and ends. */
  lemma {:induction false} MissesTwo(log: Log)
    ensures
      RunOn(World1([Drain, Showing(2), Drain], [Op.Close(2)], log), [PopOp, PopOp])
      == Showing2(log.(popped := log.popped + [Op.Close(2)], missed := log.missed + [2]))
  {
    var w := World1([Drain, Showing(2), Drain], [Op.Close(2)], log);
    assert WindowIndex([1], 2).None?;
    RunOne(w, PopOp, [PopOp]);
    RunOne(Next(w, PopOp), PopOp, []);
    assert [PopOp] + [PopOp] == [PopOp, PopOp] && [PopOp] + [] == [PopOp];
    assert [Drain, Showing(2), Drain][..2] == [Drain, Showing(2)];
  }

  lemma {:induction false} StoresTwo(log: Log) returns (log': Log)
    ensures log'.popped == log.popped && log'.missed == log.missed
    ensures Next(Next(Showing2(log), Return), EndHandler) == Both([Drain, DevActions], log')
  {
    var w1 := Next(Showing2(log), Return);
    assert [Drain, Showing(2)][..1] == [Drain] && [1] + [2] == [1, 2];
    assert WindowIndex([1, 2], 2) == Some(1);
    assert w1.stack == [Drain] + [Handler(2)] && (w1.stack)[..1] == [Drain];
    log' := w1.log;
    assert [Drain] + [DevActions] == [Drain, DevActions];
  }

  function Both(stack: seq<Frame>, log: Log): World {
    World(true, false, false, [1, 2], 2, [], map[], stack, log)
  }

  lemma {:induction false} Unwinds(log: Log)
    ensures Next(Both([Drain, DevActions], log), Return) == Both([Drain, Drain], log)
    ensures Next(Both([Drain, Drain], log), PopOp) == Both([Drain], log)
    ensures Next(Both([Drain], log), PopOp) == Both([], log)
  {
    assert [Drain, DevActions][..1] + [Drain] == [Drain, Drain] && [Drain, Drain][..1] == [Drain] && [Drain][..0] == [];
  }

  lemma {:induction false} ShowsTwo(log: Log)
    ensures
      var w := RunOn(Showing2(log), ShowTwo());
      |w.stack| == 0 && w.windows == [1, 2] && w.log.popped == log.popped && w.log.missed == log.missed
  {
    var w := Showing2(log);
    var log' := StoresTwo(log);
    Unwinds(log');
    RunFour(Next(w, Return), EndHandler, Return, PopOp, PopOp);
    RunOne(w, Return, [EndHandler, Return, PopOp, PopOp]);
    assert [Return] + [EndHandler, Return, PopOp, PopOp] == ShowTwo();
  }

  lemma {:induction false} RunParts(w: World, a: seq<Step>, b: seq<Step>)
    ensures RunOn(w, a + b) == RunOn(RunOn(w, a), b)
  {
    RunOnIsRun(w, [], a + b);
    RunOnIsRun(w, [], a);
    RunOnIsRun(w, a, b);
    assert [] + (a + b) == a + b && [] + a == a;
  }

  /**
   Effects need not end in queue order. While window 2 is being shown, AppKit tells window 1
   something and its handler closes window 2: the Close is popped after the Open of the same
   window, and yet that window is open in the end.
   */
  lemma {:induction false} EarlyCloseIsLost() returns (steps: seq<Step>)
    ensures
      var w := Run(Boot([]), steps);
      |w.stack| == 0 && w.windows == [1, 2] && w.log.popped == [Open(2), Op.Close(2)] && w.log.missed == [2]
  {
    var boot := Boot([]);
    var a, b, c, d := Ask(Open(2)), [PopOp], Ask(Op.Close(2)), [PopOp, PopOp];
    steps := a + b + c + d + ShowTwo();
    RunParts(boot, a, b);
    RunParts(boot, a + b, c);
    RunParts(boot, a + b + c, d);
    RunParts(boot, a + b + c + d, ShowTwo());
    RunOnIsRun(boot, [], steps);
    assert [] + steps == steps;
    AskedOf1([], boot.log, Open(2));
    var log1 := RunOn(boot, a).log;
    assert [] + [Drain] == [Drain];
    OpensTwo(log1);
    var log2 := RunOn(boot, a + b).log;
    AskedOf1([Drain, Showing(2)], log2, Op.Close(2));
    var log3 := RunOn(boot, a + b + c).log;
    assert [Drain, Showing(2)] + [Drain] == [Drain, Showing(2), Drain];
    MissesTwo(log3);
    ShowsTwo(RunOn(boot, a + b + c + d).log);
  }
}

/** The link probe makes progress: every owed repaint happens within a bounded number of worker steps. */
module LinkLiveness {
  // The renderer may take any number of steps in between; only the worker's own steps are counted.

  import opened Wrappers
  import opened LinkCache
  import opened LinkProtocol

  /** A pane that read the counter at `gen`, and a path whose landing is to bring its repaint. */
  datatype Wait = Wait(gen: nat, path: Path)

  /** The repaint will come: the counter has passed the pane, is about to, or the path waits for a first verdict. */
  predicate Awaited(w: World, d: Wait) {
    w.generation > d.gen || w.worker.Bumping? || (d.path in w.cache.inflight && Held(w.cache, d.path) == None)
  }

  function Position(queue: seq<Path>, path: Path): (k: nat)
    ensures k <= |queue| && (k < |queue| ==> queue[k] == path)
    ensures path in queue <==> k < |queue|
  {
    if |queue| == 0 || queue[0] == path then 0 else 1 + Position(queue[1..], path)
  }

  /** Worker steps until the counter has passed the pane: at most a take and a landing for each path ahead. */
  function Distance(w: World, d: Wait): nat {
    if w.generation > d.gen then 0
    else
      match w.worker
      case Bumping => 1
      case Probing(path) => if path == d.path then 2 else 2 * Position(w.cache.queue, d.path) + 4
      case Waiting => 2 * Position(w.cache.queue, d.path) + 3
      case Stopped => 0
  }

  predicate WorkerSteps(w: World, step: Step) {
    match step
    case TakePath => w.worker.Waiting? && (w.cache.stopping || |w.cache.queue| > 0)
    case LandVerdict(_, _, _) => w.worker.Probing?
    case Bump => w.worker.Bumping?
    case _ => false
  }

  predicate Running(w: World) {
    !w.cache.stopping && !w.worker.Stopped?
  }

  /* ---------------------------------------------------------------- one step */

  lemma {:induction false} PositionBehind(queue: seq<Path>, path: Path, p: Path)
    requires path in queue
    ensures Position(queue + [p], path) == Position(queue, path)
  {
    if queue[0] != path {
      PositionBehind(queue[1..], path, p);
      assert (queue + [p])[1..] == queue[1..] + [p];
    }
  }

  lemma {:induction false} QueuedKeepsPlace(c: Cache, q: Path, path: Path)
    requires path in c.inflight
    ensures path in Queued(c, q).inflight && Held(Queued(c, q), path) == Held(c, path)
    ensures path in c.queue ==> Position(Queued(c, q).queue, path) == Position(c.queue, path)
  {
    if path in c.queue { PositionBehind(c.queue, path, q); }
  }

  /** An ask promotes, and then queues or does not. */
  lemma {:induction false} AskParts(c: Cache, q: Path, now: nat)
    ensures var c' := LookupOrQueue(c, q, now).1; c' == Promoted(c, q) || c' == Queued(Promoted(c, q), q)
  {
  }

  lemma {:induction false} PromotedKeepsQueue(c: Cache, q: Path)
    ensures Promoted(c, q).queue == c.queue && Promoted(c, q).inflight == c.inflight
  {
  }

  /** What an ask does to a path in flight: it stays where it is in the queue, and stays unanswered. */
  lemma {:induction false} AskKeepsPlace(c: Cache, q: Path, now: nat, path: Path)
    requires Bounded(c) && path in c.inflight && Held(c, path) == None
    ensures var c' := LookupOrQueue(c, q, now).1; path in c'.inflight && Held(c', path) == None
    ensures path in c.queue ==> Position(LookupOrQueue(c, q, now).1.queue, path) == Position(c.queue, path)
  {
    PromotedAnswers(c, q, path);
    AskParts(c, q, now);
    PromotedKeepsQueue(c, q);
    QueuedKeepsPlace(Promoted(c, q), q, path);
  }

  lemma {:induction false} AskKeepsAwaited(w: World, pane: nat, path: Path, now: nat, d: Wait)
    requires Inv(w) && Running(w) && Awaited(w, d)
    ensures var w' := Next(w, Probe(pane, path, now));
            Running(w') && Awaited(w', d) && Distance(w', d) <= Distance(w, d)
  {
    var w' := Next(w, Probe(pane, path, now));
    assert w'.generation == w.generation && w'.worker == w.worker && !w'.cache.stopping;
    if d.path in w.cache.inflight && Held(w.cache, d.path) == None { AskKeepsPlace(w.cache, path, now, d.path); }
  }

  lemma {:induction false} TakeIsProgress(w: World, d: Wait)
    requires Inv(w) && Running(w) && Awaited(w, d) && WorkerSteps(w, TakePath)
    ensures var w' := Next(w, TakePath);
            Running(w') && Awaited(w', d) && (w.generation > d.gen || Distance(w', d) < Distance(w, d))
  {
  }

  lemma {:induction false} LandIsProgress(w: World, found: bool, took: nat, now: nat, d: Wait)
    requires Inv(w) && Running(w) && Awaited(w, d) && d.gen <= w.generation && w.worker.Probing?
    ensures var w' := Next(w, LandVerdict(found, took, now));
            Running(w') && Awaited(w', d) && (w.generation > d.gen || Distance(w', d) < Distance(w, d))
  {
    var c' := w.cache.(inflight := w.cache.inflight - {w.worker.path});
    InsertHotAnswers(c', w.worker.path, Landing(found, took, now), d.path);
    assert Held(c', d.path) == Held(w.cache, d.path);
  }

  /** No step moves an awaited repaint away, and every step of the worker brings it nearer. */
  lemma {:induction false} StepIsProgress(w: World, step: Step, d: Wait)
    requires Inv(w) && Running(w) && Awaited(w, d) && d.gen <= w.generation && !step.RequestStop?
    ensures var w' := Next(w, step); Running(w') && Awaited(w', d) && w.generation <= w'.generation
    ensures Distance(Next(w, step), d) + (if WorkerSteps(w, step) && w.generation == d.gen then 1 else 0)
            <= Distance(w, d)
  {
    match step
    case Probe(pane, path, now) => AskKeepsAwaited(w, pane, path, now, d);
    case TakePath => if WorkerSteps(w, step) { TakeIsProgress(w, d); }
    case LandVerdict(found, took, now) => if w.worker.Probing? { LandIsProgress(w, found, took, now, d); }
    case _ =>
  }

  /** The worker is never stuck while a repaint is awaited: it has exactly the step its place in the loop names. */
  lemma {:induction false} WorkerIsNotStuck(w: World, d: Wait)
    requires Inv(w) && Running(w) && Awaited(w, d) && w.generation <= d.gen
    ensures w.worker.Waiting? ==> WorkerSteps(w, TakePath)
    ensures !w.worker.Waiting? ==> WorkerSteps(w, Bump) || WorkerSteps(w, LandVerdict(true, 0, 0))
    ensures 0 < Distance(w, d) <= 2 * QUEUE_CAP + 2
  {
  }

  /* ---------------------------------------------------------------- over every run */

  /** How many of the steps the worker takes. */
  function Turns(w: World, steps: seq<Step>): nat {
    if |steps| == 0 then 0
    else
      var before := steps[..|steps| - 1];
      Turns(w, before) + if WorkerSteps(Run(w, before), steps[|steps| - 1]) then 1 else 0
  }

  predicate NeverStops(steps: seq<Step>) {
    RequestStop !in steps
  }

  lemma {:induction false} RunIsProgress(w: World, steps: seq<Step>, d: Wait)
    requires Inv(w) && Running(w) && Awaited(w, d) && d.gen <= w.generation && NeverStops(steps)
    ensures var w' := Run(w, steps);
            Inv(w') && Running(w') && Awaited(w', d) && d.gen <= w'.generation
            && (w'.generation > d.gen || Distance(w', d) + Turns(w, steps) <= Distance(w, d))
  {
    if |steps| > 0 {
      var before, last := steps[..|steps| - 1], steps[|steps| - 1];
      RunIsProgress(w, before, d);
      StepIsProgress(Run(w, before), last, d);
      StepKeepsInv(Run(w, before), last);
    }
  }

  lemma {:induction false} RunsOn(steps: seq<Step>)
    requires NeverStops(steps)
    ensures Running(Run(BOOT, steps))
  {
    if |steps| > 0 { RunsOn(steps[..|steps| - 1]); }
  }

  /** After `Distance` worker steps the counter has passed the pane, whatever the renderer does in between. */
  lemma {:induction false} AwaitedIsPassed(w: World, d: Wait, more: seq<Step>)
    requires Inv(w) && Running(w) && Awaited(w, d) && d.gen <= w.generation && NeverStops(more)
    requires Turns(w, more) >= Distance(w, d)
    ensures Run(w, more).generation > d.gen
  {
    RunIsProgress(w, more, d);
    var w' := Run(w, more);
    if w'.generation <= d.gen { WorkerIsNotStuck(w', d); }
  }

  /** Until then the worker always has a step, and it brings the repaint nearer. */
  lemma {:induction false} RepaintIsReachable(w: World, d: Wait)
    requires Inv(w) && Running(w) && Awaited(w, d) && w.generation == d.gen
    ensures exists step :: WorkerSteps(w, step) && Distance(Next(w, step), d) < Distance(w, d)
  {
    WorkerIsNotStuck(w, d);
    var step := if w.worker.Waiting? then TakePath else if w.worker.Bumping? then Bump else LandVerdict(true, 0, 0);
    StepIsProgress(w, step, d);
    assert WorkerSteps(w, step);
  }

  /* ---------------------------------------------------------------- every draw */

  /** Some path in flight has no verdict yet, whoever asked for it. */
  ghost predicate SomeUnanswered(c: Cache) {
    exists q :: q in c.inflight && Held(c, q) == None
  }

  ghost predicate Due(w: World, d: Draw) {
    w.generation > d.gen || w.worker.Bumping? || SomeUnanswered(w.cache)
  }

  /** What is drawn is not what the worker has landed, or nothing has been landed and the ask was not dropped. */
  predicate Outdated(w: World, d: Draw) {
    if d.verdict == Unknown then !d.dropped
    else d.path in w.landed && VerdictOf(w.landed[d.path]) != d.verdict
  }

  /** An outdated draw is due: the path in flight is its own, or the bump is. */
  lemma {:induction false} OutdatedIsDue(steps: seq<Step>, d: Draw)
    requires d in Run(BOOT, steps).draws && Outdated(Run(BOOT, steps), d)
    ensures Due(Run(BOOT, steps), d)
  {
    RunKeepsInv(steps);
    assert DrawOk(Run(BOOT, steps), d);
  }

  /**
   In every run that does not request a stop, a draw that is due, a dropped ask included, is
   overtaken by the counter after 2 * QUEUE_CAP + 2 more steps of the worker, whatever the renderer
   does in between.
   */
  lemma {:induction false} RepaintHappens(steps: seq<Step>, d: Draw, more: seq<Step>)
    requires NeverStops(steps) && NeverStops(more)
    requires d in Run(BOOT, steps).draws && Due(Run(BOOT, steps), d)
    requires Turns(Run(BOOT, steps), more) >= 2 * QUEUE_CAP + 2
    ensures Run(Run(BOOT, steps), more).generation > d.gen
  {
    var w := Run(BOOT, steps);
    RunKeepsInv(steps);
    RunsOn(steps);
    var q := d.path;
    if SomeUnanswered(w.cache) { q :| q in w.cache.inflight && Held(w.cache, q) == None; }
    if w.generation <= d.gen { WorkerIsNotStuck(w, Wait(d.gen, q)); }
    AwaitedIsPassed(w, Wait(d.gen, q), more);
  }
}

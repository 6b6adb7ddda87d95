/** The renderer and the link-probe worker of src/link_probe.rs as a two-party protocol. */
module LinkProtocol {
  // Each step is one lock region or one atomic access; any interleaving of them is a run.
  // A pane is drawn by reading `generation()` and then probing the paths it shows; a pane is
  // rebuilt when the counter has moved past the value it read.

  import opened Wrappers
  import opened LinkCache

  /** Where the worker stands: parked, off-lock in a syscall, between unlock and the counter bump, or gone. */
  datatype Worker = Waiting | Probing(path: Path) | Bumping | Stopped

  /** One answer drawn on screen: the generation its pane had read, and whether the ask was dropped. */
  datatype Draw = Draw(gen: nat, path: Path, verdict: Verdict, dropped: bool)

  /** `panes` holds the generation each pane last read; `landed` the latest landed verdict of each path. */
  datatype World = World(cache: Cache, generation: nat, worker: Worker,
                         panes: map<nat, nat>, draws: set<Draw>, landed: map<Path, bool>)

  const BOOT := World(EMPTY, 1, Waiting, map[], {}, map[])

  datatype Step =
    | ReadGeneration(pane: nat)
    | Probe(pane: nat, path: Path, now: nat)
    | TakePath
    | LandVerdict(found: bool, took: nat, now: nat)
    | Bump
    | RequestStop

  /** A step that is not enabled leaves the world as it is. */
  function Next(w: World, step: Step): World {
    match step
    case ReadGeneration(pane) => w.(panes := w.panes[pane := w.generation])
    case Probe(pane, path, now) =>
      if pane !in w.panes then w
      else
        var (verdict, c) := LookupOrQueue(w.cache, path, now);
        w.(cache := c,
           draws := w.draws + {Draw(w.panes[pane], path, verdict, verdict == Unknown && Drops(w.cache, path))})
    case TakePath =>
      if !w.worker.Waiting? then w
      else if w.cache.stopping then w.(worker := Stopped)
      else if w.cache.queue == [] then w
      else
        var (path, c) := Take(w.cache);
        w.(cache := c, worker := Probing(path))
    case LandVerdict(found, took, now) =>
      if !w.worker.Probing? then w
      else
        var path := w.worker.path;
        var (news, c) := Land(w.cache, path, Landing(found, took, now));
        w.(cache := c, landed := w.landed[path := found], worker := if news then Bumping else Waiting)
    case Bump =>
      if !w.worker.Bumping? then w else w.(generation := w.generation + 1, worker := Waiting)
    case RequestStop => w.(cache := w.cache.(stopping := true))
  }

  function Run(w: World, steps: seq<Step>): World {
    if steps == [] then w else Next(Run(w, steps[..|steps| - 1]), steps[|steps| - 1])
  }

  /* ---------------------------------------------------------------- invariants */

  /** The generation once the worker's pending bump, if any, has happened. */
  function Reach(w: World): nat {
    if w.worker.Bumping? then w.generation + 1 else w.generation
  }

  function BeingProbed(w: World): set<Path> {
    if w.worker.Probing? then {w.worker.path} else {}
  }

  ghost predicate Distinct(s: seq<Path>) {
    forall i, j :: 0 <= i < j < |s| ==> s[i] != s[j]
  }

  /** In flight means queued or being probed, each path once. */
  ghost predicate Exact(inflight: set<Path>, queue: seq<Path>, probing: set<Path>) {
    && Distinct(queue) && |queue| <= QUEUE_CAP
    && (forall p :: p in inflight <==> p in queue || p in probing)
    && (forall p :: p in probing ==> p !in queue)
  }

  ghost predicate InflightExact(w: World) {
    Exact(w.cache.inflight, w.cache.queue, BeingProbed(w))
  }

  /** The cached answer of a path is absent or its latest landed verdict. */
  ghost predicate CacheTrue(w: World) {
    && Bounded(w.cache)
    && forall p :: Held(w.cache, p).Some? ==> p in w.landed && w.landed[p] == Held(w.cache, p).value.found
  }

  /**
   What is on screen is right, or a repaint is owed: a definite answer is the latest landed
   verdict or the counter will pass the pane's; an unknown one is being asked about, or the
   counter will pass the pane's, or the queue was full when it was asked.
   */
  ghost predicate DrawOk(w: World, d: Draw) {
    if d.verdict == Unknown then
      (d.path in w.cache.inflight && Held(w.cache, d.path) == None) || Reach(w) > d.gen || d.dropped
    else
      d.path in w.landed && (VerdictOf(w.landed[d.path]) == d.verdict || Reach(w) > d.gen)
  }

  ghost predicate Painted(w: World) {
    && (forall p :: p in w.panes ==> w.panes[p] <= w.generation)
    && (forall d :: d in w.draws ==> d.gen <= w.generation && DrawOk(w, d))
  }

  ghost predicate Inv(w: World) {
    InflightExact(w) && CacheTrue(w) && Painted(w)
  }

  /* ---------------------------------------------------------------- every step keeps them */

  /** Promotion neither changes an answer nor touches the queue, except by forgetting. */
  lemma {:induction false} PromotedAnswers(c: Cache, path: Path, q: Path)
    requires Bounded(c)
    ensures Bounded(Promoted(c, path))
    ensures Held(Promoted(c, path), q) == Held(c, q) || Held(Promoted(c, path), q) == None
    ensures Held(Promoted(c, path), path) == Held(c, path)
  {
    if path !in c.hot && path in c.cold { InsertHotAnswers(c, path, c.cold[path], q); }
  }

  lemma {:induction false} EnqueueKeepsExact(inflight: set<Path>, queue: seq<Path>, probing: set<Path>, path: Path)
    requires Exact(inflight, queue, probing) && path !in inflight && |queue| < QUEUE_CAP
    ensures Exact(inflight + {path}, queue + [path], probing)
  {
    assert forall i :: 0 <= i < |queue| ==> queue[i] in queue;
    assert forall p :: p in queue + [path] <==> p in queue || p == path;
  }

  lemma {:induction false} ProbeKeepsInflight(w: World, pane: nat, path: Path, now: nat)
    requires InflightExact(w)
    ensures InflightExact(Next(w, Probe(pane, path, now)))
  {
    if path !in w.cache.inflight && |w.cache.queue| < QUEUE_CAP {
      EnqueueKeepsExact(w.cache.inflight, w.cache.queue, BeingProbed(w), path);
    }
  }

  lemma {:induction false} ProbeKeepsTruth(w: World, pane: nat, path: Path, now: nat)
    requires CacheTrue(w)
    ensures CacheTrue(Next(w, Probe(pane, path, now)))
  {
    var w' := Next(w, Probe(pane, path, now));
    PromotedAnswers(w.cache, path, path);
    forall p | Held(w'.cache, p).Some? ensures p in w'.landed && w'.landed[p] == Held(w'.cache, p).value.found {
      PromotedAnswers(w.cache, path, p);
    }
  }

  lemma {:induction false} ProbeKeepsPainted(w: World, pane: nat, path: Path, now: nat)
    requires Inv(w)
    ensures Painted(Next(w, Probe(pane, path, now)))
  {
    var w' := Next(w, Probe(pane, path, now));
    if pane in w.panes {
      forall d | d in w'.draws ensures d.gen <= w'.generation && DrawOk(w', d) {
        PromotedAnswers(w.cache, path, d.path);
        PromotedAnswers(w.cache, path, path);
      }
    }
  }

  lemma {:induction false} TakeKeepsInv(w: World)
    requires Inv(w)
    ensures Inv(Next(w, TakePath))
  {
    var q := w.cache.queue;
    if q != [] {
      assert q == [q[0]] + q[1..];
      forall d | d in w.draws ensures DrawOk(Next(w, TakePath), d) {
        assert DrawOk(w, d);
      }
    }
  }

  /** Landing bumps the counter whenever it changes what any path's latest verdict is. */
  lemma {:induction false} LandIsNewsWhenItChanges(w: World, found: bool, took: nat, now: nat)
    requires CacheTrue(w) && w.worker.Probing?
    ensures var path, w' := w.worker.path, Next(w, LandVerdict(found, took, now));
            (path !in w.landed || w.landed[path] != found || Held(w.cache, path) == None) ==> w'.worker == Bumping
  {
  }

  lemma {:induction false} LandKeepsTruth(w: World, found: bool, took: nat, now: nat)
    requires CacheTrue(w) && w.worker.Probing?
    ensures CacheTrue(Next(w, LandVerdict(found, took, now)))
  {
    var w' := Next(w, LandVerdict(found, took, now));
    var c' := w.cache.(inflight := w.cache.inflight - {w.worker.path});
    var e := Landing(found, took, now);
    InsertHotAnswers(c', w.worker.path, e, w.worker.path);
    forall p | Held(w'.cache, p).Some? ensures p in w'.landed && w'.landed[p] == Held(w'.cache, p).value.found {
      InsertHotAnswers(c', w.worker.path, e, p);
      assert Held(c', p) == Held(w.cache, p);
    }
  }

  lemma {:induction false} LandKeepsPainted(w: World, found: bool, took: nat, now: nat)
    requires Inv(w) && w.worker.Probing?
    ensures Painted(Next(w, LandVerdict(found, took, now)))
  {
    var w' := Next(w, LandVerdict(found, took, now));
    LandIsNewsWhenItChanges(w, found, took, now);
    forall d | d in w'.draws ensures d.gen <= w'.generation && DrawOk(w', d) {
      assert DrawOk(w, d);
      var c' := w.cache.(inflight := w.cache.inflight - {w.worker.path});
      InsertHotAnswers(c', w.worker.path, Landing(found, took, now), d.path);
      assert Held(c', d.path) == Held(w.cache, d.path);
    }
  }

  lemma {:induction false} LandKeepsInv(w: World, found: bool, took: nat, now: nat)
    requires Inv(w) && w.worker.Probing?
    ensures Inv(Next(w, LandVerdict(found, took, now)))
  {
    LandKeepsTruth(w, found, took, now);
    LandKeepsPainted(w, found, took, now);
  }

  lemma {:induction false} StepKeepsInv(w: World, step: Step)
    requires Inv(w)
    ensures Inv(Next(w, step))
  {
    match step
    case Probe(pane, path, now) =>
      ProbeKeepsInflight(w, pane, path, now);
      ProbeKeepsTruth(w, pane, path, now);
      ProbeKeepsPainted(w, pane, path, now);
    case TakePath => TakeKeepsInv(w);
    case LandVerdict(found, took, now) => if w.worker.Probing? { LandKeepsInv(w, found, took, now); }
    case _ => OtherStepKeepsInv(w, step);
  }

  lemma {:induction false} OtherStepKeepsInv(w: World, step: Step)
    requires Inv(w) && (step.ReadGeneration? || step.Bump? || step.RequestStop?)
    ensures Inv(Next(w, step))
  {
    var w' := Next(w, step);
    assert forall p :: Held(w'.cache, p) == Held(w.cache, p);
    forall d | d in w'.draws ensures d.gen <= w'.generation && DrawOk(w', d) {
      assert DrawOk(w, d);
    }
  }

  /* ---------------------------------------------------------------- over every run */

  lemma {:induction false} RunKeepsInv(steps: seq<Step>)
    ensures Inv(Run(BOOT, steps))
  {
    if steps != [] {
      RunKeepsInv(steps[..|steps| - 1]);
      StepKeepsInv(Run(BOOT, steps[..|steps| - 1]), steps[|steps| - 1]);
    }
  }

  /** No lost repaint, in every interleaving. */
  lemma {:induction false} NoLostRepaint(steps: seq<Step>, d: Draw)
    requires d in Run(BOOT, steps).draws
    ensures var w := Run(BOOT, steps);
            && (d.verdict != Unknown ==>
                  d.path in w.landed && (VerdictOf(w.landed[d.path]) != d.verdict ==> Reach(w) > d.gen))
            && (d.verdict == Unknown ==>
                  d.path in w.cache.inflight || Reach(w) > d.gen || d.dropped)
  {
    RunKeepsInv(steps);
  }

  /** In every interleaving: queue and caches stay bounded, in flight exactly the queued paths and the probed one. */
  lemma {:induction false} AlwaysBounded(steps: seq<Step>)
    ensures var w := Run(BOOT, steps);
            && |w.cache.queue| <= 512 && |w.cache.inflight| <= 513
            && |w.cache.hot| <= 4096 && |w.cache.cold| <= 4096
            && w.cache.inflight == (set p | p in w.cache.queue) + BeingProbed(w)
  {
    RunKeepsInv(steps);
    var w := Run(BOOT, steps);
    DistinctSize(w.cache.queue);
    assert w.cache.inflight == (set p | p in w.cache.queue) + BeingProbed(w);
  }

  lemma {:induction false} DistinctSize(s: seq<Path>)
    ensures |set p | p in s| <= |s|
  {
    if s != [] {
      DistinctSize(s[1..]);
      assert (set p | p in s) == {s[0]} + set p | p in s[1..];
    }
  }

  /** A definite answer in any run is the latest verdict the worker landed for that path. */
  lemma {:induction false} AnswersAreLatestLanded(steps: seq<Step>, path: Path, now: nat)
    ensures var w := Run(BOOT, steps);
            var answer := LookupOrQueue(w.cache, path, now).0;
            answer != Unknown ==> path in w.landed && answer == VerdictOf(w.landed[path])
  {
    RunKeepsInv(steps);
  }

  /** The steps that insert into the hot map: a landing, and an ask that finds its path in the cold one. */
  predicate Inserts(w: World, step: Step) {
    || (step.LandVerdict? && w.worker.Probing?)
    || (step.Probe? && step.pane in w.panes && step.path !in w.cache.hot && step.path in w.cache.cold)
  }

  function InsertCount(w: World, steps: seq<Step>): nat {
    if |steps| == 0 then 0
    else
      var before := steps[..|steps| - 1];
      InsertCount(w, before) + if Inserts(Run(w, before), steps[|steps| - 1]) then 1 else 0
  }

  lemma {:induction false} StepCosts(w: World, step: Step, path: Path)
    requires Bounded(w.cache)
    ensures Bounded(Next(w, step).cache)
    ensures Budget(Next(w, step).cache, path) >= Budget(w.cache, path) - if Inserts(w, step) then 1 else 0
  {
    match step
    case Probe(pane, q, now) => AskCostsOne(w.cache, q, now, path);
    case LandVerdict(found, took, now) =>
      if w.worker.Probing? { LandCostsOne(w.cache, w.worker.path, Landing(found, took, now), path); }
    case _ =>
  }

  lemma {:induction false} AskCostsOne(c: Cache, q: Path, now: nat, path: Path)
    requires Bounded(c)
    ensures var c' := LookupOrQueue(c, q, now).1;
            Bounded(c') && Budget(c', path) >= Budget(c, path) - if q !in c.hot && q in c.cold then 1 else 0
  {
    if q !in c.hot && q in c.cold {
      InsertHotCostsOne(c, q, c.cold[q], path);
      InsertHotAnswers(c, q, c.cold[q], path);
    }
  }

  lemma {:induction false} LandCostsOne(c: Cache, q: Path, e: Entry, path: Path)
    requires Bounded(c)
    ensures var c' := Land(c, q, e).1; Bounded(c') && Budget(c', path) >= Budget(c, path) - 1
  {
    var c' := c.(inflight := c.inflight - {q});
    InsertHotCostsOne(c', q, e, path);
    InsertHotAnswers(c', q, e, path);
  }

  lemma {:induction false} RunCosts(w: World, steps: seq<Step>, path: Path)
    requires Bounded(w.cache)
    ensures Bounded(Run(w, steps).cache)
    ensures Budget(Run(w, steps).cache, path) >= Budget(w.cache, path) - InsertCount(w, steps)
  {
    if |steps| > 0 {
      RunCosts(w, steps[..|steps| - 1], path);
      StepCosts(Run(w, steps[..|steps| - 1]), steps[|steps| - 1], path);
    }
  }

  /**
   Once a path has been answered definitely, no interleaving makes it unknown again before more
   than CACHE_CAP inserts have happened, however many other steps there are.
   */
  lemma {:induction false} AnswerIsNotWithdrawn(w: World, pane: nat, path: Path, now: nat, steps: seq<Step>, now': nat)
    requires Inv(w) && pane in w.panes && LookupOrQueue(w.cache, path, now).0 != Unknown
    requires InsertCount(Next(w, Probe(pane, path, now)), steps) <= CACHE_CAP
    ensures LookupOrQueue(Run(Next(w, Probe(pane, path, now)), steps).cache, path, now').0 != Unknown
  {
    var w1 := Next(w, Probe(pane, path, now));
    StepKeepsInv(w, Probe(pane, path, now));
    if path !in w.cache.hot { InsertHotCostsOne(w.cache, path, w.cache.cold[path], path); }
    RunCosts(w1, steps, path);
    InsertHotCostsOne(Run(w1, steps).cache, path, Entry(true, 0, 0), path);
  }

  /* ---------------------------------------------------------------- the dropped ask */

  /** An unknown answer is dropped exactly when its path ends up neither queued nor being probed. */
  lemma {:induction false} UnknownIsQueuedUnlessDropped(w: World, pane: nat, path: Path, now: nat)
    requires Inv(w) && pane in w.panes && LookupOrQueue(w.cache, path, now).0 == Unknown
    ensures var w' := Next(w, Probe(pane, path, now));
            && Draw(w.panes[pane], path, Unknown, Drops(w.cache, path)) in w'.draws
            && (Drops(w.cache, path) <==> path !in w'.cache.inflight)
  {
  }

  function Name(n: nat): Path {
    seq(n, _ => 'a')
  }

  /** One pane reads the counter, then asks about `n` different paths. */
  function AskMany(n: nat): seq<Step> {
    if n == 0 then [ReadGeneration(0)] else AskMany(n - 1) + [Probe(0, Name(n - 1), 0)]
  }

  /** One pane has read the counter and asked about `n` paths, all new. */
  ghost predicate Asked(w: World, n: nat) {
    && w.panes == map[0 := 1] && w.generation == 1 && w.worker == Waiting
    && w.cache.hot == map[] && w.cache.cold == map[] && |w.cache.queue| == n
    && forall p :: p in w.cache.inflight ==> |p| < n
  }

  lemma {:induction false} AskOneMore(w: World, n: nat)
    requires Asked(w, n) && n < QUEUE_CAP
    ensures Asked(Next(w, Probe(0, Name(n), 0)), n + 1)
  {
    assert |Name(n)| == n;
    AskQueues(w.cache, Name(n));
  }

  lemma {:induction false} AskManyFillsQueue(n: nat)
    requires n <= QUEUE_CAP
    ensures Asked(Run(BOOT, AskMany(n)), n)
  {
    if n == 0 {
      assert AskMany(0)[..0] == [];
    } else {
      AskManyFillsQueue(n - 1);
      assert AskMany(n)[..|AskMany(n)| - 1] == AskMany(n - 1);
      AskOneMore(Run(BOOT, AskMany(n - 1)), n - 1);
    }
  }

  lemma {:induction false} AskQueues(c: Cache, q: Path)
    requires c.hot == map[] && c.cold == map[] && q !in c.inflight && |c.queue| < QUEUE_CAP
    ensures LookupOrQueue(c, q, 0) == (Unknown, c.(queue := c.queue + [q], inflight := c.inflight + {q}))
  {
  }

  /**
   The queue-full case of `NoLostRepaint` is real: the ask after QUEUE_CAP others draws an unknown
   that nobody is working on.  Its repaint still comes, brought by any of the others.
   */
  lemma {:induction false} FullQueueDropsAnAsk()
    ensures var w := Run(BOOT, AskMany(QUEUE_CAP + 1));
            exists d :: d in w.draws && d.verdict == Unknown && d.path !in w.cache.inflight && Reach(w) == d.gen
  {
    var n := QUEUE_CAP;
    AskManyFillsQueue(n);
    var w := Run(BOOT, AskMany(n));
    assert AskMany(n + 1)[..|AskMany(n + 1)| - 1] == AskMany(n);
    assert |Name(n)| == n;
    assert Draw(1, Name(n), Unknown, true) in Next(w, Probe(0, Name(n), 0)).draws;
  }
}

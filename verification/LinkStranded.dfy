/** When an ask dropped at a full queue is never painted: the exact condition, and a run. */
module LinkStranded {
  // Refreshes of held paths that confirm what is known do not move the counter.  A queue filled with
  // them alone can drain without a repaint, and an ask dropped meanwhile stays unknown on screen.

  import opened Wrappers
  import opened LinkCache
  import opened LinkProtocol
  import opened LinkLiveness

  /** The worker has nothing to do. */
  predicate Idle(w: World) {
    w.worker.Waiting? && |w.cache.queue| == 0
  }

  /** Paths in flight that the next rotation would forget. */
  function ColdOnly(c: Cache): set<Path> {
    set p | p in c.inflight && p !in c.hot && p in c.cold
  }

  /** There are several of them, and the hot map has no room for all but one. */
  predicate Crowded(c: Cache) {
    |ColdOnly(c)| >= 2 && |c.hot| + |ColdOnly(c)| >= CACHE_CAP + 2
  }

  /** The counter is sure to move before the worker is idle. */
  ghost predicate Sure(w: World) {
    w.worker.Bumping? || SomeUnanswered(w.cache) || Crowded(w.cache)
  }

  /* ---------------------------------------------------------------- what is sure stays sure */

  lemma {:induction false} OneMore(s: set<Path>, p: Path) returns (q: Path)
    requires |s| >= 2
    ensures q in s && q != p
  {
    if s <= {p} { SubsetSize(s, {p}); }
    q :| q in s && q != p;
  }

  lemma {:induction false} SubsetSize<T>(s: set<T>, t: set<T>)
    requires s <= t
    ensures |s| <= |t|
  {
    assert t == s + (t - s) && |t| == |s| + |t - s|;
  }

  /** All but at most one. */
  lemma {:induction false} AllButOne<T>(s: set<T>, t: set<T>, p: T)
    requires s - {p} <= t
    ensures |t| >= |s| - 1 && (p !in s ==> |t| >= |s|)
  {
    SubsetSize(s - {p}, t);
    if p !in s { assert s - {p} == s; }
  }

  /** A rotation forgets every other path that was only in the cold map. */
  lemma {:induction false} RotationForgets(c: Cache, p: Path, e: Entry, q: Path)
    requires |c.hot| >= CACHE_CAP && q !in c.hot && q != p
    ensures Held(InsertHot(c, p, e), q) == None
  {
  }

  /** An insert of `p`, which may leave flight, into a crowded cache: someone is forgotten, or it stays crowded. */
  lemma {:induction false} InsertWhileCrowded(c: Cache, p: Path, e: Entry, inflight: set<Path>)
    requires Bounded(c) && Crowded(c) && c.inflight - {p} <= inflight
    ensures var c' := InsertHot(c.(inflight := inflight), p, e); SomeUnanswered(c') || Crowded(c')
  {
    var c' := InsertHot(c.(inflight := inflight), p, e);
    if |c.hot| >= CACHE_CAP {
      var q := OneMore(ColdOnly(c), p);
      RotationForgets(c.(inflight := inflight), p, e, q);
      assert q in c'.inflight;
    } else {
      UpdateSize(c.hot, p, e);
      assert ColdOnly(c) - {p} <= ColdOnly(c');
      AllButOne(ColdOnly(c), ColdOnly(c'), p);
    }
  }

  lemma {:induction false} MoreInFlight(c: Cache, q: Path)
    ensures Crowded(c) ==> Crowded(Queued(c, q))
    ensures SomeUnanswered(c) ==> SomeUnanswered(Queued(c, q))
  {
    SubsetSize(ColdOnly(c), ColdOnly(Queued(c, q)));
    if SomeUnanswered(c) {
      var u :| u in c.inflight && Held(c, u) == None;
      assert u in Queued(c, q).inflight && Held(Queued(c, q), u) == None;
    }
  }

  lemma {:induction false} PromotedStaysSure(c: Cache, q: Path)
    requires Bounded(c) && (SomeUnanswered(c) || Crowded(c))
    ensures SomeUnanswered(Promoted(c, q)) || Crowded(Promoted(c, q))
  {
    if SomeUnanswered(c) {
      var u :| u in c.inflight && Held(c, u) == None;
      PromotedAnswers(c, q, u);
      PromotedKeepsQueue(c, q);
      assert u in Promoted(c, q).inflight && Held(Promoted(c, q), u) == None;
    } else if q !in c.hot && q in c.cold {
      InsertWhileCrowded(c, q, c.cold[q], c.inflight);
      assert c.(inflight := c.inflight) == c;
    }
  }

  lemma {:induction false} AskStaysSure(c: Cache, q: Path, now: nat)
    requires Bounded(c) && (SomeUnanswered(c) || Crowded(c))
    ensures var c' := LookupOrQueue(c, q, now).1; SomeUnanswered(c') || Crowded(c')
  {
    PromotedStaysSure(c, q);
    AskParts(c, q, now);
    MoreInFlight(Promoted(c, q), q);
  }

  /** A landing that is no news leaves the others unanswered, or crowded. */
  lemma {:induction false} LandStaysSure(c: Cache, p: Path, e: Entry)
    requires Bounded(c) && (SomeUnanswered(c) || Crowded(c)) && !Land(c, p, e).0
    ensures SomeUnanswered(Land(c, p, e).1) || Crowded(Land(c, p, e).1)
  {
    var c1, c' := c.(inflight := c.inflight - {p}), Land(c, p, e).1;
    assert Held(c1, p) == Held(c, p);
    if SomeUnanswered(c) {
      var u :| u in c.inflight && Held(c, u) == None;
      assert Held(c1, u) == None;
      InsertHotAnswers(c1, p, e, u);
      assert u in c'.inflight && Held(c', u) == None;
    } else {
      InsertWhileCrowded(c, p, e, c.inflight - {p});
    }
  }

  lemma {:induction false} TakeStaysSure(c: Cache)
    requires |c.queue| > 0
    ensures SomeUnanswered(c) ==> SomeUnanswered(Take(c).1)
    ensures Crowded(c) ==> Crowded(Take(c).1)
  {
    assert ColdOnly(Take(c).1) == ColdOnly(c);
    if SomeUnanswered(c) {
      var u :| u in c.inflight && Held(c, u) == None;
      assert u in Take(c).1.inflight && Held(Take(c).1, u) == None;
    }
  }

  lemma {:induction false} StepStaysSure(w: World, step: Step)
    requires Inv(w) && Running(w) && Sure(w) && !step.RequestStop?
    ensures var w' := Next(w, step);
            Running(w') && w'.generation >= w.generation && (w'.generation > w.generation || Sure(w'))
  {
    if !w.worker.Bumping? {
      match step
      case Probe(pane, q, now) => AskStaysSure(w.cache, q, now);
      case TakePath => if w.worker.Waiting? && |w.cache.queue| > 0 { TakeStaysSure(w.cache); }
      case LandVerdict(found, took, now) =>
        var e := Landing(found, took, now);
        if w.worker.Probing? && !Land(w.cache, w.worker.path, e).0 { LandStaysSure(w.cache, w.worker.path, e); }
      case _ =>
    }
  }

  lemma {:induction false} StepRises(w: World, step: Step)
    requires Running(w) && !step.RequestStop?
    ensures Running(Next(w, step)) && Next(w, step).generation >= w.generation && w.draws <= Next(w, step).draws
  {
  }

  lemma {:induction false} RunStaysSure(w: World, more: seq<Step>)
    requires Inv(w) && Running(w) && Sure(w) && NeverStops(more)
    ensures var w' := Run(w, more);
            Inv(w') && Running(w') && w'.generation >= w.generation && (w'.generation > w.generation || Sure(w'))
  {
    if |more| > 0 {
      var w1, last := Run(w, more[..|more| - 1]), more[|more| - 1];
      RunStaysSure(w, more[..|more| - 1]);
      StepKeepsInv(w1, last);
      StepRises(w1, last);
      if Sure(w1) { StepStaysSure(w1, last); }
    }
  }

  lemma {:induction false} IdleIsNotSure(w: World)
    requires Inv(w) && Idle(w)
    ensures !Sure(w) && w.cache.inflight == {}
  {
    assert forall p :: p !in w.cache.inflight;
    assert ColdOnly(w.cache) == {};
  }

  /* ---------------------------------------------------------------- what is not sure can fail */

  lemma {:induction false} RunCons(w: World, step: Step, rest: seq<Step>)
    ensures Run(w, [step] + rest) == Run(Next(w, step), rest)
  {
    var all := [step] + rest;
    if |rest| == 0 {
      assert all == [step] && all[..0] == [];
    } else {
      RunCons(w, step, rest[..|rest| - 1]);
      assert all[..|all| - 1] == [step] + rest[..|rest| - 1];
    }
  }

  predicate AllHeld(c: Cache) {
    forall p :: p in c.inflight ==> Held(c, p).Some?
  }

  /** No landing to come can forget a held path before its turn. */
  predicate Safe(c: Cache) {
    AllHeld(c) && ((forall p :: p in c.inflight ==> p in c.hot) || |c.hot| + |c.inflight| <= CACHE_CAP)
  }

  lemma {:induction false} InflightSize(w: World)
    requires InflightExact(w)
    ensures |w.cache.inflight| <= |w.cache.queue| + (if w.worker.Probing? then 1 else 0) <= QUEUE_CAP + 1
  {
    DistinctSize(w.cache.queue);
    assert w.cache.inflight == (set p | p in w.cache.queue) + BeingProbed(w);
  }

  /** Confirming a held path keeps the rest safe, and answers nothing new. */
  lemma {:induction false} ConfirmStaysSafe(c: Cache, p: Path, e: Entry)
    requires Bounded(c) && Safe(c) && p in c.inflight && |c.inflight| <= QUEUE_CAP + 1
    ensures var c' := Land(c, p, e).1;
            Safe(c') && forall q :: Held(c, q) == None ==> Held(c', q) == None
  {
    var c1, c' := c.(inflight := c.inflight - {p}), Land(c, p, e).1;
    UpdateSize(c.hot, p, e);
    UpdateSize(map[], p, e);
    forall q ensures Held(c, q) == None ==> Held(c', q) == None {
      InsertHotAnswers(c1, p, e, q);
      assert Held(c1, q) == Held(c, q);
    }
  }

  predicate WorkerOnly(steps: seq<Step>) {
    forall i :: 0 <= i < |steps| ==> steps[i].TakePath? || steps[i].LandVerdict?
  }

  /** `more` leads from `w` to an idle worker, repaints nothing and answers nothing new. */
  ghost predicate Strands(w: World, more: seq<Step>) {
    var w' := Run(w, more);
    && NeverStops(more) && Idle(w') && w'.generation == w.generation && w.draws <= w'.draws
    && forall q :: Held(w.cache, q) == None ==> Held(w'.cache, q) == None
  }

  lemma {:induction false} StrandsCons(w: World, step: Step, rest: seq<Step>)
    requires Running(w) && !step.RequestStop? && Next(w, step).generation == w.generation
    requires forall q :: Held(w.cache, q) == None ==> Held(Next(w, step).cache, q) == None
    requires Strands(Next(w, step), rest)
    ensures Strands(w, [step] + rest)
  {
    RunCons(w, step, rest);
    StepRises(w, step);
  }

  /** The worker's next step when it confirms what is held. */
  function Confirming(w: World): Step {
    if w.worker.Probing? && Held(w.cache, w.worker.path).Some?
    then LandVerdict(Held(w.cache, w.worker.path).value.found, 0, 0)
    else TakePath
  }

  function Left(w: World): nat {
    2 * |w.cache.queue| + if w.worker.Probing? then 1 else 0
  }

  lemma {:induction false} ConfirmTake(w: World)
    requires Running(w) && w.worker.Waiting? && Safe(w.cache) && |w.cache.queue| > 0
    ensures var w' := Next(w, TakePath);
            && Running(w') && w'.worker.Probing? && Safe(w'.cache) && w'.generation == w.generation
            && (forall q :: Held(w'.cache, q) == Held(w.cache, q)) && Left(w') < Left(w)
  {
  }

  lemma {:induction false} ConfirmLand(w: World)
    requires InflightExact(w) && Bounded(w.cache) && Running(w) && w.worker.Probing? && Safe(w.cache)
    ensures Confirming(w).LandVerdict?
    ensures var w' := Next(w, Confirming(w));
            && Running(w') && w'.worker.Waiting? && Safe(w'.cache) && w'.generation == w.generation
            && (forall q :: Held(w.cache, q) == None ==> Held(w'.cache, q) == None) && Left(w') < Left(w)
  {
    InflightSize(w);
    var p := w.worker.path;
    assert p in w.cache.inflight;
    var e := Landing(Held(w.cache, p).value.found, 0, 0);
    ConfirmStaysSafe(w.cache, p, e);
    ConfirmIsNoNews(w.cache, p, e);
  }

  lemma {:induction false} ConfirmIsNoNews(c: Cache, p: Path, e: Entry)
    requires Held(c, p).Some? && e.found == Held(c, p).value.found
    ensures !Land(c, p, e).0 && Land(c, p, e).1.queue == c.queue && Land(c, p, e).1.stopping == c.stopping
  {
  }

  lemma {:induction false} ConfirmStep(w: World)
    requires Inv(w) && Running(w) && !w.worker.Bumping? && Safe(w.cache) && !Idle(w)
    ensures var w' := Next(w, Confirming(w));
            && Inv(w') && Running(w') && !w'.worker.Bumping? && Safe(w'.cache) && w'.generation == w.generation
            && (forall q :: Held(w.cache, q) == None ==> Held(w'.cache, q) == None) && Left(w') < Left(w)
  {
    StepKeepsInv(w, Confirming(w));
    if w.worker.Probing? { ConfirmLand(w); } else { ConfirmTake(w); }
  }

  /** On its own the worker can confirm everything in flight and come to rest. */
  lemma {:induction false} ConfirmAll(w: World) returns (more: seq<Step>)
    requires Inv(w) && Running(w) && !w.worker.Bumping? && Safe(w.cache)
    ensures WorkerOnly(more) && Strands(w, more)
    decreases Left(w)
  {
    if Idle(w) {
      more := [];
    } else {
      ConfirmStep(w);
      var rest := ConfirmAll(Next(w, Confirming(w)));
      StrandsCons(w, Confirming(w), rest);
      more := [Confirming(w)] + rest;
    }
  }

  /** Asking again about a path in flight promotes it, and does nothing else to the cache. */
  lemma {:induction false} ReaskPromotes(c: Cache, p: Path)
    requires p in ColdOnly(c)
    ensures LookupOrQueue(c, p, 0).1 == InsertHot(c, p, c.cold[p])
  {
  }

  lemma {:induction false} TwoCold(c: Cache, p: Path, q: Path)
    requires p in ColdOnly(c) && q in ColdOnly(c) && p != q
    ensures |ColdOnly(c)| >= 2
  {
    SubsetSize({p, q}, ColdOnly(c));
  }

  /** Of the held paths that a rotation would forget, one is saved; the others too, unless it was the last. */
  lemma {:induction false} PromoteOne(c: Cache, p: Path)
    requires Bounded(c) && AllHeld(c) && !Crowded(c) && p in ColdOnly(c) && |c.inflight| <= QUEUE_CAP + 1
    ensures var c' := InsertHot(c, p, c.cold[p]);
            && AllHeld(c') && (Safe(c') || (!Crowded(c') && |ColdOnly(c')| < |ColdOnly(c)|))
            && forall q :: Held(c, q) == None ==> Held(c', q) == None
  {
    var c' := InsertHot(c, p, c.cold[p]);
    UpdateSize(c.hot, p, c.cold[p]);
    UpdateSize(map[], p, c.cold[p]);
    forall q ensures Held(c, q) == None ==> Held(c', q) == None {
      InsertHotAnswers(c, p, c.cold[p], q);
    }
    if |c.hot| < CACHE_CAP {
      assert ColdOnly(c') == ColdOnly(c) - {p};
    } else {
      forall q | q in c.inflight ensures q in c.hot || q == p {
        assert Held(c, q).Some?;
        if q in ColdOnly(c) && q != p { TwoCold(c, p, q); }
      }
    }
  }

  lemma {:induction false} NoneColdIsSafe(c: Cache)
    requires AllHeld(c) && ColdOnly(c) == {}
    ensures Safe(c)
  {
    forall p | p in c.inflight ensures p in c.hot {
      assert Held(c, p).Some? && p !in ColdOnly(c);
    }
  }

  /** Where nothing makes the repaint sure, the renderer can save the cold paths and the worker confirm them all. */
  lemma {:induction false} PromoteAll(w: World) returns (more: seq<Step>)
    requires Inv(w) && Running(w) && !w.worker.Bumping? && 0 in w.panes
    requires AllHeld(w.cache) && (Safe(w.cache) || !Crowded(w.cache))
    ensures Strands(w, more)
    decreases |ColdOnly(w.cache)|
  {
    if Safe(w.cache) {
      more := ConfirmAll(w);
    } else if ColdOnly(w.cache) == {} {
      NoneColdIsSafe(w.cache);
    } else {
      var p :| p in ColdOnly(w.cache);
      var step := Probe(0, p, 0);
      InflightSize(w);
      ReaskPromotes(w.cache, p);
      PromoteOne(w.cache, p);
      StepKeepsInv(w, step);
      var w' := Next(w, step);
      assert w'.cache == InsertHot(w.cache, p, w.cache.cold[p]);
      var rest;
      if Safe(w'.cache) { rest := ConfirmAll(w'); } else { rest := PromoteAll(w'); }
      StrandsCons(w, step, rest);
      more := [step] + rest;
    }
  }

  lemma {:induction false} NotSureStrands(w: World) returns (more: seq<Step>)
    requires Inv(w) && Running(w) && !Sure(w)
    ensures Strands(w, more)
  {
    assert forall p :: p in w.cache.inflight ==> Held(w.cache, p) != None;
    StepKeepsInv(w, ReadGeneration(0));
    var w' := Next(w, ReadGeneration(0));
    assert w'.cache == w.cache && w'.generation == w.generation;
    var rest := PromoteAll(w');
    StrandsCons(w, ReadGeneration(0), rest);
    more := [ReadGeneration(0)] + rest;
  }

  /* ---------------------------------------------------------------- the exact condition */

  /**
   For any draw not yet overtaken, dropped or not: every run comes to overtake it before the worker
   is idle if and only if a bump is pending, a path in flight is unanswered, or the hot map has no
   room for the held paths in flight that its next rotation forgets.
   */
  lemma {:induction false} RepaintIsSureIff(steps: seq<Step>, d: Draw)
    requires NeverStops(steps) && d in Run(BOOT, steps).draws && Run(BOOT, steps).generation <= d.gen
    ensures var w := Run(BOOT, steps);
            (forall more :: NeverStops(more) && Idle(Run(w, more)) ==> Run(w, more).generation > d.gen) <==> Sure(w)
  {
    var w := Run(BOOT, steps);
    RunKeepsInv(steps);
    RunsOn(steps);
    if Sure(w) {
      forall more | NeverStops(more) && Idle(Run(w, more)) ensures Run(w, more).generation > d.gen {
        RunStaysSure(w, more);
        IdleIsNotSure(Run(w, more));
      }
    } else {
      var more := NotSureStrands(w);
      assert NeverStops(more) && Idle(Run(w, more)) && Run(w, more).generation == w.generation;
    }
  }

  /** With room for all that is in flight, an unanswered path is the condition, and the worker alone can fail it. */
  lemma {:induction false} WithRoomUnansweredDecides(w: World) returns (more: seq<Step>)
    requires Inv(w) && Running(w) && |w.cache.hot| + |w.cache.inflight| <= CACHE_CAP
    ensures Sure(w) <==> w.worker.Bumping? || SomeUnanswered(w.cache)
    ensures !Sure(w) ==> WorkerOnly(more) && Strands(w, more)
  {
    SubsetSize(ColdOnly(w.cache), w.cache.inflight);
    if Sure(w) {
      more := [];
    } else {
      forall p | p in w.cache.inflight ensures Held(w.cache, p).Some? {
        assert Held(w.cache, p) != None;
      }
      more := ConfirmAll(w);
    }
  }

  /* ---------------------------------------------------------------- a stranded ask */

  /** The renderer asks, and the worker answers before anything else happens. */
  function AskAndAnswer(path: Path): seq<Step> {
    [Probe(0, path, 0), TakePath, LandVerdict(true, 0, 0), Bump]
  }

  /** `n` paths answered one by one. */
  function WarmUp(n: nat): seq<Step> {
    if n == 0 then [ReadGeneration(0)] else WarmUp(n - 1) + AskAndAnswer(Name(n - 1))
  }

  /** Then the pane is drawn again when the answers have lapsed, and asks for `n` of them. */
  function AskAgain(n: nat): seq<Step> {
    if n == 0 then WarmUp(QUEUE_CAP) + [ReadGeneration(0)]
    else AskAgain(n - 1) + [Probe(0, Name(n - 1), TTL)]
  }

  /** The hot map holds exactly the first `n` names, all asked at time 0. */
  ghost predicate Warm(hot: map<Path, Entry>, n: nat) {
    && |hot| == n
    && (forall p :: p in hot ==> |p| < n && hot[p] == Entry(true, 0, TTL))
    && forall k: nat :: k < n ==> Name(k) in hot
  }

  ghost predicate Warmed(w: World, n: nat) {
    && 0 in w.panes && w.worker == Waiting
    && Warm(w.cache.hot, n) && w.cache == Cache(w.cache.hot, map[], {}, [], false)
  }

  lemma {:induction false} RunConcat(w: World, a: seq<Step>, b: seq<Step>)
    ensures Run(w, a + b) == Run(Run(w, a), b)
  {
    if |b| == 0 {
      assert a + b == a;
    } else {
      RunConcat(w, a, b[..|b| - 1]);
      assert (a + b)[..|a + b| - 1] == a + b[..|b| - 1];
    }
  }

  lemma {:induction false} RunOne(w: World, step: Step)
    ensures Run(w, [step]) == Next(w, step)
  {
    assert [step][..0] == [];
  }

  lemma {:induction false} RunFour(w: World, a: Step, b: Step, c: Step, d: Step)
    ensures Run(w, [a, b, c, d]) == Next(Next(Next(Next(w, a), b), c), d)
  {
    RunConcat(w, [a, b], [c, d]);
    RunConcat(w, [a], [b]);
    RunConcat(Run(w, [a, b]), [c], [d]);
    assert [a] + [b] == [a, b] && [c] + [d] == [c, d] && [a, b] + [c, d] == [a, b, c, d];
    RunOne(w, a);
    RunOne(Run(w, [a]), b);
    RunOne(Run(w, [a, b]), c);
    RunOne(Run(Run(w, [a, b]), [c]), d);
  }

  lemma {:induction false} WarmGrows(hot: map<Path, Entry>, n: nat)
    requires Warm(hot, n)
    ensures Name(n) !in hot && Warm(hot[Name(n) := Entry(true, 0, TTL)], n + 1)
  {
    assert |Name(n)| == n;
    UpdateSize(hot, Name(n), Entry(true, 0, TTL));
  }

  lemma {:induction false} AnswerOne(w: World, n: nat)
    requires Warmed(w, n) && n < QUEUE_CAP
    ensures Warmed(Run(w, AskAndAnswer(Name(n))), n + 1)
  {
    var path, e := Name(n), Entry(true, 0, TTL);
    var hot := w.cache.hot;
    RunFour(w, Probe(0, path, 0), TakePath, LandVerdict(true, 0, 0), Bump);
    WarmGrows(hot, n);
    var w1 := Next(w, Probe(0, path, 0));
    assert w1.cache == Cache(hot, map[], {path}, [path], false);
    var w2 := Next(w1, TakePath);
    assert w2.cache == Cache(hot, map[], {path}, [], false) && w2.worker == Probing(path);
    var w3 := Next(w2, LandVerdict(true, 0, 0));
    assert w3.cache == Cache(hot[path := e], map[], {}, [], false) && w3.worker == Bumping;
  }

  lemma {:induction false} WarmUpWarms(n: nat)
    requires n <= QUEUE_CAP
    ensures Warmed(Run(BOOT, WarmUp(n)), n)
  {
    if n == 0 {
      RunOne(BOOT, ReadGeneration(0));
    } else {
      WarmUpWarms(n - 1);
      RunConcat(BOOT, WarmUp(n - 1), AskAndAnswer(Name(n - 1)));
      AnswerOne(Run(BOOT, WarmUp(n - 1)), n - 1);
    }
  }

  /** Everything known is queued for a refresh, up to `n`. */
  ghost predicate Refreshing(w: World, n: nat) {
    && 0 in w.panes && w.panes[0] == w.generation && w.worker == Waiting && !w.cache.stopping
    && Warm(w.cache.hot, QUEUE_CAP) && w.cache.cold == map[] && |w.cache.queue| == n
    && forall p :: p in w.cache.inflight ==> p in w.cache.hot && |p| < n
  }

  lemma {:induction false} RefreshOne(c: Cache, path: Path)
    requires path in c.hot && c.hot[path] == Entry(true, 0, TTL) && path !in c.inflight && |c.queue| < QUEUE_CAP
    ensures LookupOrQueue(c, path, TTL).1 == c.(queue := c.queue + [path], inflight := c.inflight + {path})
  {
  }

  lemma {:induction false} RefreshStep(w: World, n: nat)
    requires Refreshing(w, n) && n < QUEUE_CAP
    ensures Refreshing(Next(w, Probe(0, Name(n), TTL)), n + 1)
  {
    assert |Name(n)| == n;
    assert w.cache.hot[Name(n)] == Entry(true, 0, TTL);
    RefreshOne(w.cache, Name(n));
  }

  lemma {:induction false} WarmedStarts(w: World)
    requires Warmed(w, QUEUE_CAP)
    ensures Refreshing(Next(w, ReadGeneration(0)), 0)
  {
  }

  lemma {:induction false} RunPush(w: World, steps: seq<Step>, step: Step)
    ensures Run(w, steps + [step]) == Next(Run(w, steps), step)
  {
    RunConcat(w, steps, [step]);
    RunOne(Run(w, steps), step);
  }

  lemma {:induction false} AskAgainRefreshes(n: nat)
    requires n <= QUEUE_CAP
    ensures Refreshing(Run(BOOT, AskAgain(n)), n)
  {
    if n == 0 {
      WarmUpWarms(QUEUE_CAP);
      RunPush(BOOT, WarmUp(QUEUE_CAP), ReadGeneration(0));
      WarmedStarts(Run(BOOT, WarmUp(QUEUE_CAP)));
    } else {
      AskAgainRefreshes(n - 1);
      RunPush(BOOT, AskAgain(n - 1), Probe(0, Name(n - 1), TTL));
      RefreshStep(Run(BOOT, AskAgain(n - 1)), n - 1);
    }
  }

  lemma {:induction false} WarmUpNeverStops(n: nat)
    ensures NeverStops(WarmUp(n))
  {
    if n > 0 { WarmUpNeverStops(n - 1); }
  }

  lemma {:induction false} AskAgainNeverStops(n: nat)
    ensures NeverStops(AskAgain(n))
  {
    if n == 0 { WarmUpNeverStops(QUEUE_CAP); } else { AskAgainNeverStops(n - 1); }
  }

  /** With the queue full of refreshes one new path is asked, dropped, and drawn as unknown. */
  lemma {:induction false} NewPathIsDropped(w: World)
    requires Inv(w) && Refreshing(w, QUEUE_CAP)
    ensures var w', d := Next(w, Probe(0, Name(QUEUE_CAP), TTL)), Draw(w.generation, Name(QUEUE_CAP), Unknown, true);
            && d in w'.draws && w'.generation == w.generation && Running(w') && !Sure(w')
            && Held(w'.cache, d.path) == None
  {
    assert |Name(QUEUE_CAP)| == QUEUE_CAP;
    assert ColdOnly(w.cache) == {};
  }

  /**
   A repaint is lost: in some run a dropped ask is drawn unknown, its path has no verdict, its pane
   has read the present counter, and the worker is idle.
   */
  lemma {:induction false} DroppedAskIsStranded() returns (steps: seq<Step>, d: Draw)
    ensures var w := Run(BOOT, steps);
            && NeverStops(steps) && d in w.draws && d.verdict == Unknown
            && Held(w.cache, d.path) == None && w.generation == d.gen && Idle(w)
  {
    AskAgainRefreshes(QUEUE_CAP);
    AskAgainNeverStops(QUEUE_CAP);
    var before, step := AskAgain(QUEUE_CAP), Probe(0, Name(QUEUE_CAP), TTL);
    RunKeepsInv(before);
    RunPush(BOOT, before, step);
    NewPathIsDropped(Run(BOOT, before));
    d := Draw(Run(BOOT, before).generation, Name(QUEUE_CAP), Unknown, true);
    RunKeepsInv(before + [step]);
    var more := NotSureStrands(Run(BOOT, before + [step]));
    RunConcat(BOOT, before + [step], more);
    steps := before + [step] + more;
  }
}

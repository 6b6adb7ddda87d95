/**
 The link probe's bounded maps on values (src/link_probe.rs): a two-generation cache, a
 bounded queue, and the set of paths queued or being probed.  Every function here is what
 one lock region does.
 */
module LinkCache {
  import opened Wrappers

  /** Entries per cache generation. */
  const CACHE_CAP: nat := 4096
  /** Paths awaiting a worker probe. */
  const QUEUE_CAP: nat := 512
  /** Milliseconds. */
  const TTL: nat := 5_000
  const SLOW_PROBE: nat := 20
  const SLOW_TTL: nat := 300_000

  type Path = string

  datatype Verdict = Exists | Missing | Unknown

  datatype Entry = Entry(found: bool, at: nat, ttl: nat)

  datatype Cache = Cache(hot: map<Path, Entry>, cold: map<Path, Entry>,
                         inflight: set<Path>, queue: seq<Path>, stopping: bool)

  const EMPTY := Cache(map[], map[], {}, [], false)

  function VerdictOf(found: bool): Verdict {
    if found then Exists else Missing
  }

  /** `duration_since` is 0 for an instant in the future. */
  predicate Fresh(e: Entry, now: nat) {
    (if now < e.at then 0 else now - e.at) < e.ttl
  }

  function InsertHot(c: Cache, path: Path, e: Entry): Cache {
    var c' := if |c.hot| >= CACHE_CAP then c.(cold := c.hot, hot := map[]) else c;
    c'.(hot := c'.hot[path := e])
  }

  /** The hot-then-cold lookup. */
  function Held(c: Cache, path: Path): Option<Entry> {
    if path in c.hot then Some(c.hot[path])
    else if path in c.cold then Some(c.cold[path])
    else None
  }

  /** A cold hit moves to the hot generation. */
  function Promoted(c: Cache, path: Path): Cache {
    if path !in c.hot && path in c.cold then InsertHot(c, path, c.cold[path]) else c
  }

  /** The branch that drops an ask: nothing to wait for and no room to queue. */
  predicate Drops(c: Cache, path: Path) {
    path !in c.inflight && |c.queue| >= QUEUE_CAP
  }

  function Queued(c: Cache, path: Path): Cache {
    if path in c.inflight || |c.queue| >= QUEUE_CAP then c
    else c.(inflight := c.inflight + {path}, queue := c.queue + [path])
  }

  function LookupOrQueue(c: Cache, path: Path, now: nat): (Verdict, Cache) {
    var held, c' := Held(c, path), Promoted(c, path);
    match held
    case Some(e) => (VerdictOf(e.found), if Fresh(e, now) then c' else Queued(c', path))
    case None => (Unknown, Queued(c', path))
  }

  /** The worker's first lock region, once there is something to pop. */
  function Take(c: Cache): (Path, Cache)
    requires c.queue != []
  {
    (c.queue[0], c.(queue := c.queue[1..]))
  }

  function Landing(found: bool, took: nat, now: nat): Entry {
    Entry(found, now, if took >= SLOW_PROBE then SLOW_TTL else TTL)
  }

  /** The worker's second lock region: is the verdict news, and the cache after it. */
  function Land(c: Cache, path: Path, e: Entry): (bool, Cache) {
    var c' := c.(inflight := c.inflight - {path});
    var news := match Held(c', path) case Some(prev) => prev.found != e.found case None => true;
    (news, InsertHot(c', path, e))
  }

  /* ---------------------------------------------------------------- when a path is asked about */

  /** A held answer is not asked about again until it has lapsed; a lapsed or missing one is, if there is room. */
  lemma {:induction false} AskedIffLapsed(c: Cache, path: Path, now: nat)
    ensures
      var c', held := LookupOrQueue(c, path, now).1, Held(c, path);
      var current := held.Some? && held.value.ttl > 0 && now < held.value.at + held.value.ttl;
      if !current && path !in c.inflight && |c.queue| < 512
      then c'.queue == c.queue + [path] && c'.inflight == c.inflight + {path}
      else c'.queue == c.queue && c'.inflight == c.inflight
  {
  }

  /** How long a landed answer is good: five minutes after a probe of 20 ms or more, else five seconds. */
  lemma {:induction false} LandedLapses(c: Cache, path: Path, found: bool, took: nat, landed: nat, now: nat)
    requires now >= landed
    ensures
      var c' := Land(c, path, Landing(found, took, landed)).1;
      var lapsed := now >= landed + (if took >= 20 then 300_000 else 5_000);
      && path !in c'.inflight && c'.queue == c.queue
      && (LookupOrQueue(c', path, now).0 == if found then Exists else Missing)
      && (path in LookupOrQueue(c', path, now).1.inflight <==> lapsed && |c.queue| < 512)
  {
    var c' := Land(c, path, Landing(found, took, landed)).1;
    assert path in c'.hot && c'.hot[path] == Landing(found, took, landed);
  }

  /* ---------------------------------------------------------------- the cache as one map */

  predicate Bounded(c: Cache) {
    |c.hot| <= CACHE_CAP && |c.cold| <= CACHE_CAP
  }

  lemma {:induction false} UpdateSize<K, V>(m: map<K, V>, k: K, v: V)
    ensures |m| <= |m[k := v]| <= |m| + 1
    ensures k in m ==> |m[k := v]| == |m|
    ensures k !in m ==> |m[k := v]| == |m| + 1
  {
    assert m[k := v].Keys == m.Keys + {k};
  }

  /** An insert answers its own path, and never changes another path's answer except by forgetting it. */
  lemma {:induction false} InsertHotAnswers(c: Cache, path: Path, e: Entry, q: Path)
    requires Bounded(c)
    ensures Bounded(InsertHot(c, path, e))
    ensures Held(InsertHot(c, path, e), path) == Some(e)
    ensures q != path ==> Held(InsertHot(c, path, e), q) == Held(c, q) || Held(InsertHot(c, path, e), q) == None
  {
    UpdateSize(c.hot, path, e);
    UpdateSize(map[], path, e);
  }

  /** How many more inserts of other paths `path` is sure to survive; -1 once it is forgotten. */
  function Budget(c: Cache, path: Path): int {
    if path in c.hot then 2 * CACHE_CAP - |c.hot|
    else if path in c.cold then CACHE_CAP - |c.hot|
    else -1
  }

  lemma {:induction false} InsertHotCostsOne(c: Cache, path: Path, e: Entry, q: Path)
    requires Bounded(c)
    ensures Budget(InsertHot(c, path, e), q) >= Budget(c, q) - 1
    ensures Budget(InsertHot(c, path, e), path) >= CACHE_CAP
    ensures Held(c, q).Some? <==> Budget(c, q) >= 0
  {
    UpdateSize(c.hot, path, e);
    UpdateSize(map[], path, e);
  }

  function InsertAll(c: Cache, items: seq<(Path, Entry)>): Cache {
    if items == [] then c
    else InsertHot(InsertAll(c, items[..|items| - 1]), items[|items| - 1].0, items[|items| - 1].1)
  }

  lemma {:induction false} InsertAllCosts(c: Cache, items: seq<(Path, Entry)>, q: Path)
    requires Bounded(c)
    ensures Bounded(InsertAll(c, items)) && Budget(InsertAll(c, items), q) >= Budget(c, q) - |items|
  {
    if items != [] {
      InsertAllCosts(c, items[..|items| - 1], q);
      var before, last := InsertAll(c, items[..|items| - 1]), items[|items| - 1];
      InsertHotAnswers(before, last.0, last.1, q);
      InsertHotCostsOne(before, last.0, last.1, q);
    }
  }

  /** A definite answer survives the next CACHE_CAP inserts, whatever they insert. */
  lemma {:induction false} DefiniteAnswerSurvives(c: Cache, path: Path, now: nat, items: seq<(Path, Entry)>)
    requires Bounded(c) && LookupOrQueue(c, path, now).0 != Unknown && |items| <= CACHE_CAP
    ensures Held(InsertAll(LookupOrQueue(c, path, now).1, items), path).Some?
  {
    var after := LookupOrQueue(c, path, now).1;
    if path !in c.hot { InsertHotCostsOne(c, path, c.cold[path], path); InsertHotAnswers(c, path, c.cold[path], path); }
    InsertAllCosts(after, items, path);
    InsertHotCostsOne(InsertAll(after, items), path, Entry(true, 0, 0), path);
  }

  /** Inserting distinct new paths fills the hot generation without rotating it. */
  lemma {:induction false} FillsHot(c: Cache, items: seq<(Path, Entry)>, q: Path)
    requires |c.hot| + |items| <= CACHE_CAP
    requires forall i, j :: 0 <= i < j < |items| ==> items[i].0 != items[j].0
    requires forall i :: 0 <= i < |items| ==> items[i].0 !in c.hot
    requires q !in c.hot && forall i :: 0 <= i < |items| ==> items[i].0 != q
    ensures q !in InsertAll(c, items).hot && |InsertAll(c, items).hot| == |c.hot| + |items|
  {
    if items != [] {
      var n := |items| - 1;
      FillsHot(c, items[..n], q);
      FillsHot(c, items[..n], items[n].0);
      UpdateSize(InsertAll(c, items[..n]).hot, items[n].0, items[n].1);
    }
  }

  lemma {:induction false} InsertAllConcat(c: Cache, a: seq<(Path, Entry)>, b: seq<(Path, Entry)>)
    ensures InsertAll(c, a + b) == InsertAll(InsertAll(c, a), b)
  {
    if b == [] {
      assert a + b == a;
    } else {
      assert (a + b)[..|a + b| - 1] == a + b[..|b| - 1];
      InsertAllConcat(c, a, b[..|b| - 1]);
    }
  }

  /** The bound is exact: CACHE_CAP + 1 inserts of other paths into a full hot generation do forget the path. */
  lemma {:induction false} OneMoreInsertForgets(c: Cache, path: Path, items: seq<(Path, Entry)>)
    requires |c.hot| == CACHE_CAP && path in c.hot && |items| == CACHE_CAP + 1
    requires forall i, j :: 0 <= i < j < |items| ==> items[i].0 != items[j].0
    requires forall i :: 0 <= i < |items| ==> items[i].0 != path
    ensures Held(InsertAll(c, items), path) == None
  {
    var first, middle, last := items[..1], items[1..CACHE_CAP], items[CACHE_CAP..];
    assert items == first + middle + last;
    InsertAllConcat(c, first + middle, last);
    InsertAllConcat(c, first, middle);
    var c1 := InsertAll(c, first);
    assert first[..0] == [] && c1 == InsertHot(c, items[0].0, items[0].1);
    UpdateSize(map[], items[0].0, items[0].1);
    FillsHot(c1, middle, path);
    var c2 := InsertAll(c1, middle);
    assert path !in c2.hot;
    assert last[..0] == [] && InsertAll(c2, last) == InsertHot(c2, last[0].0, last[0].1);
  }

  /** The verdict never depends on the clock: a lapsed entry is still served, and only an absent one is unknown. */
  lemma {:induction false} AnswerIgnoresClock(c: Cache, path: Path, now: nat, now': nat)
    ensures LookupOrQueue(c, path, now).0 == LookupOrQueue(c, path, now').0
    ensures LookupOrQueue(c, path, now).0 == Unknown <==> Held(c, path) == None
  {
  }
}

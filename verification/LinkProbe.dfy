/**
 The link probe as src/link_probe.rs runs it: the mutex-guarded maps and the atomic counter
 updated in place.  Each method is one lock region or one atomic access, proved equal to the
 step LinkProtocol reasons about.
 */
module LinkProbe {
  import opened Wrappers
  import opened LinkCache
  import P = LinkProtocol

  class LinkProbe {
    var hot: map<Path, Entry>
    var cold: map<Path, Entry>
    var inflight: set<Path>
    var queue: seq<Path>
    var stopping: bool
    var generation: nat

    ghost function View(): Cache
      reads this
    {
      Cache(hot, cold, inflight, queue, stopping)
    }

    constructor ()
      ensures View() == P.BOOT.cache && generation == P.BOOT.generation == 1
      ensures hot == map[] && cold == map[] && inflight == {} && queue == [] && !stopping
    {
      hot, cold, inflight, queue, stopping, generation := map[], map[], {}, [], false, 1;
    }

    method InsertHot(path: Path, entry: Entry)
      modifies this`hot, this`cold
      ensures View() == LinkCache.InsertHot(old(View()), path, entry)
      ensures if |old(hot)| >= 4096 then cold == old(hot) && hot == map[path := entry]
              else cold == old(cold) && hot == old(hot)[path := entry]
    {
      if |hot| >= CACHE_CAP {
        cold, hot := hot, map[];
      }
      hot := hot[path := entry];
    }

    method LookupOrQueue(path: Path, now: nat) returns (verdict: Verdict)
      modifies this`hot, this`cold, this`inflight, this`queue
      ensures (verdict, View()) == LinkCache.LookupOrQueue(old(View()), path, now)
      ensures var held := if path in old(hot) then Some(old(hot[path]))
                          else if path in old(cold) then Some(old(cold[path])) else None;
              var current := held.Some? && held.value.ttl > 0 && now < held.value.at + held.value.ttl;
              && (verdict == if held.None? then Unknown else if held.value.found then Exists else Missing)
              && (if !current && path !in old(inflight) && |old(queue)| < 512
                  then queue == old(queue) + [path] && inflight == old(inflight) + {path}
                  else queue == old(queue) && inflight == old(inflight))
    {
      var held: Option<Entry> := None;
      if path in hot {
        held := Some(hot[path]);
      } else if path in cold {
        held := Some(cold[path]);
        InsertHot(path, cold[path]);
      }
      if held.Some? && Fresh(held.value, now) {
        return VerdictOf(held.value.found);
      }
      if path !in inflight && |queue| < QUEUE_CAP {
        inflight := inflight + {path};
        queue := queue + [path];
      }
      return if held.Some? then VerdictOf(held.value.found) else Unknown;
    }

    /** The worker's first lock region: the front path, or nothing while the queue is empty or it must stop. */
    method PopFront() returns (path: Option<Path>)
      modifies this`queue
      ensures stopping || old(queue) == [] ==> path == None && queue == old(queue)
      ensures !stopping && old(queue) != [] ==>
                path == Some(old(queue)[0]) && queue == old(queue)[1..] && View() == Take(old(View())).1
    {
      if stopping || |queue| == 0 {
        return None;
      }
      path := Some(queue[0]);
      queue := queue[1..];
    }

    /** The worker's second lock region; `changed` tells whether the counter is to be bumped after unlocking. */
    method Record(path: Path, found: bool, took: nat, now: nat) returns (changed: bool)
      modifies this`hot, this`cold, this`inflight
      ensures (changed, View()) == Land(old(View()), path, Landing(found, took, now))
      ensures path in hot && hot[path] == Entry(found, now, if took >= 20 then 300_000 else 5_000)
      ensures inflight == old(inflight) - {path} && queue == old(queue)
      ensures changed <==> if path in old(hot) then old(hot[path]).found != found
                           else path in old(cold) ==> old(cold[path]).found != found
    {
      var entry := Entry(found, now, if took >= SLOW_PROBE then SLOW_TTL else TTL);
      inflight := inflight - {path};
      if path in hot {
        changed := hot[path].found != found;
      } else if path in cold {
        changed := cold[path].found != found;
      } else {
        changed := true;
      }
      InsertHot(path, entry);
    }

    method BumpGeneration()
      modifies this`generation
      ensures generation == old(generation) + 1
    {
      generation := generation + 1;
    }
  }

  /** The class's fields are those of the protocol world `w`. */
  ghost predicate Runs(probe: LinkProbe, w: P.World)
    reads probe
  {
    probe.View() == w.cache && probe.generation == w.generation
  }

  /** One pane's ask, run on the class, is the protocol's Probe step. */
  method Ask(probe: LinkProbe, ghost w: P.World, pane: nat, path: Path, now: nat)
    returns (verdict: Verdict, ghost w': P.World)
    requires Runs(probe, w) && pane in w.panes
    modifies probe
    ensures w' == P.Next(w, P.Probe(pane, path, now)) && Runs(probe, w')
    ensures exists d :: d in w'.draws && d.path == path && d.verdict == verdict && d.gen == w.panes[pane]
  {
    w' := P.Next(w, P.Probe(pane, path, now));
    verdict := probe.LookupOrQueue(path, now);
    assert P.Draw(w.panes[pane], path, verdict, verdict == Unknown && Drops(w.cache, path)) in w'.draws;
  }

  /**
   One turn of the worker's loop with nothing else interleaved: pop, probe off-lock
   (`found`, `took` and `now` are what the file system and the clock say), record, bump.
   */
  method WorkOnce(probe: LinkProbe, ghost w: P.World, found: bool, took: nat, now: nat)
    returns (worked: bool, ghost w': P.World)
    requires Runs(probe, w) && w.worker == P.Waiting
    modifies probe
    ensures worked <==> !old(probe.stopping) && old(probe.queue) != []
    ensures w' == P.Next(P.Next(P.Next(w, P.TakePath), P.LandVerdict(found, took, now)), P.Bump)
    ensures Runs(probe, w') && (worked ==> w'.worker == P.Waiting)
  {
    w' := P.Next(P.Next(P.Next(w, P.TakePath), P.LandVerdict(found, took, now)), P.Bump);
    var path := probe.PopFront();
    if path.None? {
      return false, w';
    }
    var changed := probe.Record(path.value, found, took, now);
    if changed {
      probe.BumpGeneration();
    }
    worked := true;
  }
}

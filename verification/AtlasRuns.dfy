/** Theorems about lookups and about whole runs of the glyph atlas. */
module AtlasRuns {
  import opened Wrappers
  import opened AtlasModel
  import opened AtlasInvariant

  /* ---------------------------------------------------------------- one lookup */

  lemma {:induction false} StampKeepsShelf(shelf: Shelf, cache: Cache, key: GlyphKey, stamp: U64)
    requires ShelfOk(shelf, cache) && key in cache
    ensures ShelfOk(shelf, cache[key := cache[key].(lastUsed := stamp)])
  {
  }

  lemma {:induction false} StampKeepsPacked(shelves: seq<Shelf>, cache: Cache, width: nat, height: nat,
                                            key: GlyphKey, stamp: U64)
    requires Packed(shelves, cache, width, height) && key in cache
    ensures Packed(shelves, cache[key := cache[key].(lastUsed := stamp)], width, height)
  {
    forall i | 0 <= i < |shelves| ensures ShelfOk(shelves[i], cache[key := cache[key].(lastUsed := stamp)]) {
      StampKeepsShelf(shelves[i], cache, key, stamp);
    }
  }

  lemma {:induction false} TouchKeepsPainted(a: Atlas, key: GlyphKey)
    requires Painted(a) && key in a.cache
    ensures Painted(Touch(a, key))
  {
    var b := Touch(a, key);
    forall k | k in b.cache ensures Shows(b.texture, b.bpp, b.cache[k], b.ink[k]) {
      assert Shows(a.texture, a.bpp, a.cache[k], a.ink[k]);
    }
  }

  /** A hit changes at most the stamp of the entry it returns. */
  lemma {:induction false} TouchOnlyStamps(a: Atlas, key: GlyphKey) returns (stamp: U64)
    requires key in a.cache
    ensures Touch(a, key).cache == a.cache[key := a.cache[key].(lastUsed := stamp)]
    ensures stamp == (if WrappingSub(a.frame, a.cache[key].lastUsed) >= LAST_USED_RESOLUTION then a.frame
                      else a.cache[key].lastUsed)
  {
    stamp := Touch(a, key).cache[key].lastUsed;
  }

  lemma {:induction false} TouchKeepsInv(a: Atlas, key: GlyphKey)
    requires Inv(a) && key in a.cache
    ensures Inv(Touch(a, key))
  {
    var stamp := TouchOnlyStamps(a, key);
    StampKeepsPacked(a.shelves, a.cache, a.width, a.height, key, stamp);
    TouchKeepsPainted(a, key);
  }

  lemma {:induction false} CommitKeepsInv(a: Atlas, key: GlyphKey, r: Raster)
    requires Inv(a) && key !in a.cache && Solid(r, a.bpp)
    ensures var (e, b) := CommitRaster(a, key, r);
            Inv(b) && (e.Some? ==> key in b.cache && e.value == b.cache[key] && b.ink[key] == r)
  {
    PlaceOrEvictKeepsInv(a, r.w, r.h);
    PlaceOrEvictAddsNoKey(a, r.w, r.h);
    var (spot, placed) := PlaceOrEvict(a, r.w, r.h);
    if spot.Some? { RecordKeepsInv(placed, key, r, spot.value); }
  }

  lemma {:induction false} PlaceOrEvictAddsNoKey(a: Atlas, w: nat, h: nat)
    ensures var b := PlaceOrEvict(a, w, h).1;
            && b.bpp == a.bpp && b.frame == a.frame
            && forall k :: k in b.cache ==> k in a.cache && b.cache[k] == a.cache[k]
  {
  }

  /**
   Every lookup keeps the invariant, and an entry it returns shows exactly the raster
   recorded for the key: the one just made on a miss, the one held on a hit.
   */
  lemma {:induction false} FetchKeepsInv(a: Atlas, key: GlyphKey, made: Option<Raster>)
    requires Inv(a) && (made.Some? ==> Solid(made.value, a.bpp))
    ensures var (e, b) := Fetch(a, key, made);
            && Inv(b) && b.bpp == a.bpp
            && (e.Some? ==>
                  && key in b.cache && e.value == b.cache[key]
                  && b.ink[key] == (if key in a.cache then a.ink[key] else made.value)
                  && Shows(b.texture, b.bpp, e.value, b.ink[key]))
  {
    if key in a.cache {
      TouchKeepsInv(a, key);
    } else if made.Some? {
      CommitKeepsInv(a, key, made.value);
      PlaceOrEvictAddsNoKey(a, made.value.w, made.value.h);
    }
  }

  /** The padded raster fits the atlas. */
  predicate Fits(a: Atlas, w: nat, h: nat) {
    w + 2 * PAD <= a.width && h + 2 * PAD <= a.height
  }

  lemma {:induction false} PlaceNeedsRoom(shelves: seq<Shelf>, width: nat, height: nat, w: nat, h: nat)
    requires Stacked(shelves, width, height)
    ensures Place(shelves, width, height, w, h).0.Some? ==> w + 2 * PAD <= width && h + 2 * PAD <= height
  {
    var i := FirstFit(shelves, w + 2 * PAD, h + 2 * PAD, width, 0);
    if i < |shelves| { BandsAreApart(shelves, width, height, i, i); }
  }

  lemma {:induction false} RecycleKeepsStacked(shelves: seq<Shelf>, width: nat, height: nat, i: nat)
    requires Stacked(shelves, width, height) && i < |shelves|
    ensures Stacked(shelves[i := shelves[i].(xUsed := 0, entries := [])], width, height)
  {
  }

  lemma {:induction false} PlaceOrEvictIffItFits(a: Atlas, w: nat, h: nat)
    requires Stacked(a.shelves, a.width, a.height)
    ensures PlaceOrEvict(a, w, h).0.Some? <==> Fits(a, w, h)
    ensures !Fits(a, w, h) ==> PlaceOrEvict(a, w, h).1.cache == map[] && PlaceOrEvict(a, w, h).1.shelves == []
  {
    PlaceNeedsRoom(a.shelves, a.width, a.height, w, h);
    var stalest := Stalest(a.shelves, a.cache, h + 2 * PAD, |a.shelves|);
    if stalest.Some? {
      var i := stalest.value;
      RecycleKeepsStacked(a.shelves, a.width, a.height, i);
      PlaceNeedsRoom(a.shelves[i := a.shelves[i].(xUsed := 0, entries := [])], a.width, a.height, w, h);
    }
    assert Place([], a.width, a.height, w, h).0.Some? <==> Fits(a, w, h);
  }

  /** A miss is answered exactly when the padded raster fits; one that does not fit empties the whole atlas. */
  lemma {:induction false} MissIsAnsweredIffItFits(a: Atlas, key: GlyphKey, r: Raster)
    requires Inv(a) && key !in a.cache
    ensures Fetch(a, key, Some(r)).0.Some? <==> Fits(a, r.w, r.h)
    ensures !Fits(a, r.w, r.h) ==> Fetch(a, key, Some(r)).1.cache == map[] && Fetch(a, key, Some(r)).1.shelves == []
  {
    PlaceOrEvictIffItFits(a, r.w, r.h);
  }

  /* ---------------------------------------------------------------- what a miss costs */

  /** The shelf a miss recycles, when it recycles one: nothing had room, and this shelf is the stalest tall enough. */
  function Recycled(a: Atlas, w: nat, h: nat): Option<nat> {
    if PlaceIn(a, w, h).0.Some? || w + 2 * PAD > a.width then None
    else Stalest(a.shelves, a.cache, h + 2 * PAD, |a.shelves|)
  }

  predicate WithinWaste(s: Shelf, padH: nat) {
    s.h >= padH && 4 * (s.h - padH) <= s.h
  }

  /** After recycling, `place` succeeds exactly when the recycled shelf wastes at most a quarter of its height. */
  lemma {:induction false} PlaceAfterRecycle(a: Atlas, w: nat, h: nat)
    requires PlaceIn(a, w, h).0.None? && Recycled(a, w, h).Some?
    ensures var i := Recycled(a, w, h).value;
            PlaceIn(Recycle(a, i), w, h).0.Some? <==> WithinWaste(a.shelves[i], h + 2 * PAD)
  {
    var i, padW, padH := Recycled(a, w, h).value, w + 2 * PAD, h + 2 * PAD;
    var b := Recycle(a, i);
    assert forall j :: 0 <= j < |a.shelves| ==> !Accepts(a.shelves[j], padW, padH, a.width);
    assert Accepts(b.shelves[i], padW, padH, a.width) <==> WithinWaste(a.shelves[i], padH);
    assert forall j :: 0 <= j < |a.shelves| && j != i ==> b.shelves[j] == a.shelves[j];
    assert Bottom(b.shelves) == Bottom(a.shelves);
  }

  /** The whole atlas is rebuilt exactly when nothing had room and no shelf within the waste rule was recycled. */
  lemma {:induction false} MissRebuildsIff(a: Atlas, key: GlyphKey, r: Raster)
    requires key !in a.cache
    ensures Fetch(a, key, Some(r)).1.counters.rebuilds ==
            if PlaceIn(a, r.w, r.h).0.None?
               && !(Recycled(a, r.w, r.h).Some?
                    && WithinWaste(a.shelves[Recycled(a, r.w, r.h).value], r.h + 2 * PAD))
            then a.counters.rebuilds + 1 else a.counters.rebuilds
  {
    var counted := a.(counters := a.counters.(
      rasterised := SaturatingInc(a.counters.rasterised, U32_MAX),
      evictions := SaturatingInc(a.counters.evictions, U64_SPAN - 1)));
    if PlaceIn(a, r.w, r.h).0.None? && Recycled(a, r.w, r.h).Some? {
      PlaceAfterRecycle(counted, r.w, r.h);
    }
  }

  /**
   Where a raster goes: on the first shelf that is tall enough, wastes at most a quarter of its
   height and has room to the right, else on a new shelf of the raster's own height at the bottom.
   Its pixels start behind one pixel of border on each side.
   */
  lemma {:induction false} PlaceIsFirstFit(shelves: seq<Shelf>, width: nat, height: nat, w: nat, h: nat)
    ensures
      var (spot, after) := Place(shelves, width, height, w, h);
      var bottom := if |shelves| == 0 then 0 else shelves[|shelves| - 1].y + shelves[|shelves| - 1].h;
      if w + 2 > width then spot == None && after == shelves
      else if spot.Some? && spot.value.shelf < |shelves| then
        var i := spot.value.shelf;
        && Suits(shelves[i], w, h, width) && (forall j :: 0 <= j < i ==> !Suits(shelves[j], w, h, width))
        && spot.value.x == shelves[i].xUsed + 1 && spot.value.y == shelves[i].y + 1
        && after == shelves[i := shelves[i].(xUsed := shelves[i].xUsed + w + 2)]
      else
        && (forall j :: 0 <= j < |shelves| ==> !Suits(shelves[j], w, h, width))
        && (spot.Some? <==> bottom + h + 2 <= height)
        && (spot.None? ==> after == shelves)
        && (spot.Some? ==> spot.value == Spot(1, bottom + 1, |shelves|)
                           && after == shelves + [Shelf(bottom, h + 2, w + 2, [])])
  {
  }

  predicate Suits(s: Shelf, w: nat, h: nat, width: nat) {
    h + 2 <= s.h && 4 * (s.h - (h + 2)) <= s.h && s.xUsed + (w + 2) <= width
  }

  /** A shelf is recycled exactly if nothing had room, the raster is not too wide, and some shelf is tall enough. */
  lemma {:induction false} RecycledIff(a: Atlas, w: nat, h: nat)
    ensures Recycled(a, w, h).Some? <==>
            PlaceIn(a, w, h).0.None? && w + 2 <= a.width
            && exists i :: 0 <= i < |a.shelves| && a.shelves[i].h >= h + 2
  {
    if Recycled(a, w, h).Some? { assert a.shelves[Recycled(a, w, h).value].h >= h + 2; }
  }

  lemma {:induction false} PlaceOrEvictCounts(a: Atlas, w: nat, h: nat)
    ensures
      var before, after := a.counters, PlaceOrEvict(a, w, h).1.counters;
      && after.rasterised == (if before.rasterised < 0xFFFF_FFFF then before.rasterised + 1 else before.rasterised)
      && after.evictions == (if PlaceIn(a, w, h).0.None? && w + 2 <= a.width
                                && before.evictions < 0xFFFF_FFFF_FFFF_FFFF then before.evictions + 1
                             else before.evictions)
      && after.evicted == (if Recycled(a, w, h).Some? then before.evicted + 1 else before.evicted)
  {
  }

  /** Every miss with a raster counts once, a hit never; an eviction is counted as tried when nothing had room. */
  lemma {:induction false} LookupCounts(a: Atlas, key: GlyphKey, made: Option<Raster>)
    ensures
      var before, after := a.counters, Fetch(a, key, made).1.counters;
      if key in a.cache || made.None? then after == before
      else
        var w, h := made.value.w, made.value.h;
        && after.rasterised == (if before.rasterised < 0xFFFF_FFFF then before.rasterised + 1 else before.rasterised)
        && after.evictions == (if PlaceIn(a, w, h).0.None? && w + 2 <= a.width
                                  && before.evictions < 0xFFFF_FFFF_FFFF_FFFF then before.evictions + 1
                               else before.evictions)
        && after.evicted == (if Recycled(a, w, h).Some? then before.evicted + 1 else before.evicted)
  {
    if made.Some? { PlaceOrEvictCounts(a, made.value.w, made.value.h); }
  }

  /** Which of the cached keys survive `place_or_evict` when it does not rebuild. */
  lemma {:induction false} PlaceOrEvictDrops(a: Atlas, w: nat, h: nat)
    requires PlaceOrEvict(a, w, h).1.counters.rebuilds == a.counters.rebuilds
    ensures var b := PlaceOrEvict(a, w, h).1;
            var gone := if Recycled(a, w, h).Some? then KeySet(a.shelves[Recycled(a, w, h).value].entries) else {};
            b.cache == a.cache - gone && b.ink == a.ink - gone && b.access == a.access - gone
  {
  }

  /** A miss without a rebuild drops exactly the keys of one recycled shelf and keeps every other entry as it was. */
  lemma {:induction false} MissDropsAtMostOneShelf(a: Atlas, key: GlyphKey, r: Raster)
    requires key !in a.cache && a.ink.Keys == a.cache.Keys && a.access.Keys == a.cache.Keys
    requires Fetch(a, key, Some(r)).1.counters.rebuilds == a.counters.rebuilds
    ensures var b, dropped := Fetch(a, key, Some(r)).1, Recycled(a, r.w, r.h);
            forall k :: k in a.cache ==>
              && (k in b.cache <==> !(dropped.Some? && OnShelf(a.shelves, dropped.value, k)))
              && (k in b.cache ==> b.cache[k] == a.cache[k] && b.ink[k] == a.ink[k] && b.access[k] == a.access[k])
  {
    PlaceOrEvictDrops(a, r.w, r.h);
  }

  /* ---------------------------------------------------------------- recency */

  /** Each stamp trails the true last access by fewer than eight frames. */
  ghost predicate Stamped(a: Atlas) {
    && a.access.Keys == a.cache.Keys
    && forall k :: k in a.cache ==>
         a.cache[k].lastUsed <= a.access[k] < a.cache[k].lastUsed + 8 && a.access[k] <= a.frame
  }

  /** The true last access of a shelf: the latest among its keys, 0 for an empty shelf. */
  function LastAccess(entries: seq<GlyphKey>, access: map<GlyphKey, U64>): U64 {
    if entries == [] then 0
    else
      var k, rest := entries[|entries| - 1], LastAccess(entries[..|entries| - 1], access);
      if k in access && access[k] > rest then access[k] else rest
  }

  lemma {:induction false} YoungestTrailsAccess(a: Atlas, entries: seq<GlyphKey>)
    requires Stamped(a)
    ensures Youngest(entries, a.cache) <= LastAccess(entries, a.access)
            < Youngest(entries, a.cache) + 8
  {
    if entries != [] { YoungestTrailsAccess(a, entries[..|entries| - 1]); }
  }

  lemma {:induction false} StalestIsMinimal(shelves: seq<Shelf>, cache: Cache, neededH: nat, n: nat, j: nat)
    requires n <= |shelves| && j < n && shelves[j].h >= neededH
    ensures var best := Stalest(shelves, cache, neededH, n);
            && best.Some?
            && Youngest(shelves[best.value].entries, cache) <= Youngest(shelves[j].entries, cache)
            && (j < best.value ==> Youngest(shelves[best.value].entries, cache) < Youngest(shelves[j].entries, cache))
  {
    if j < n - 1 { StalestIsMinimal(shelves, cache, neededH, n - 1, j); }
  }

  /**
   Decayed LRU: the shelf a miss recycles was truly last used less than eight frames
   after any other shelf that is tall enough.
   */
  lemma {:induction false} RecycledShelfIsNearlyLeastRecent(a: Atlas, w: nat, h: nat, j: nat)
    requires Stamped(a) && Recycled(a, w, h).Some? && j < |a.shelves| && a.shelves[j].h >= h + 2 * PAD
    ensures LastAccess(a.shelves[Recycled(a, w, h).value].entries, a.access)
            < LastAccess(a.shelves[j].entries, a.access) + 8
  {
    StalestIsMinimal(a.shelves, a.cache, h + 2 * PAD, |a.shelves|, j);
    YoungestTrailsAccess(a, a.shelves[Recycled(a, w, h).value].entries);
    YoungestTrailsAccess(a, a.shelves[j].entries);
  }

  lemma {:induction false} FetchKeepsStamped(a: Atlas, key: GlyphKey, made: Option<Raster>)
    requires Stamped(a)
    ensures Stamped(Fetch(a, key, made).1) && Fetch(a, key, made).1.frame == a.frame
  {
    if key !in a.cache && made.Some? {
      var (spot, placed) := PlaceOrEvict(a, made.value.w, made.value.h);
      assert Stamped(placed);
    }
  }

  /* ---------------------------------------------------------------- runs */

  /** A lookup's raster must fill its buffer, which is what the rasteriser trait and the zeroed buffer guarantee. */
  predicate OpOk(r: Rasteriser, bpp: nat, op: Op) {
    match op
    case GetInCell(key, metrics, n) =>
      var out := r.inCell(key.font, key.glyph, metrics, n);
      out.Some? ==> Solid(out.value, bpp)
    case GetNatural(key) =>
      var out := r.natural(key.font, key.glyph, key.subpx);
      out.Some? ==> Solid(out.value, bpp)
    case GetCustom(_, w, h, _, _, painted) => |painted| == w * h * bpp
    case _ => true
  }

  lemma {:induction false} FreshIsSolid(r: Rasteriser, bpp: nat, op: Op)
    requires OpOk(r, bpp, op) && IsGet(op) && FreshOf(r, op).Some?
    ensures Solid(FreshOf(r, op).value, bpp)
  {
  }

  lemma {:induction false} StepKeepsInv(a: Atlas, r: Rasteriser, op: Op)
    requires Inv(a) && OpOk(r, a.bpp, op)
    ensures Inv(Step(a, r, op).1)
    ensures Step(a, r, op).1.bpp == a.bpp
  {
    if IsGet(op) {
      if FreshOf(r, op).Some? { FreshIsSolid(r, a.bpp, op); }
      FetchKeepsInv(a, op.key, FreshOf(r, op));
    } else if op.DropAllGlyphs? { RebuildKeepsInv(a); }
  }

  /** Every reachable state of an atlas with 16-bit dimensions satisfies the invariant. */
  lemma {:induction false} RunKeepsInv(width: nat, height: nat, bpp: nat, texture: Texture, r: Rasteriser, ops: seq<Op>)
    requires width < U16_SPAN && height < U16_SPAN && (bpp == 1 || bpp == 4)
    requires forall i :: 0 <= i < |ops| ==> OpOk(r, bpp, ops[i])
    ensures Inv(Run(Empty(width, height, bpp, texture), r, ops))
    ensures Run(Empty(width, height, bpp, texture), r, ops).bpp == bpp
  {
    if ops != [] {
      RunKeepsInv(width, height, bpp, texture, r, ops[..|ops| - 1]);
      StepKeepsInv(Run(Empty(width, height, bpp, texture), r, ops[..|ops| - 1]), r, ops[|ops| - 1]);
    }
  }

  /** The ink and the metrics of `out`, taken for `n` cells. */
  predicate TakenFor(made: Raster, out: Raster, n: nat) {
    && made.bytes == out.bytes && made.w == out.w && made.h == out.h
    && made.bearingX == out.bearingX && made.bearingY == out.bearingY && made.nCells == n
  }

  /** The caller's painting: no left bearing, and the baseline as a signed 16-bit number. */
  predicate IsPainting(made: Raster, painted: seq<Byte>, w: nat, h: nat, baselineFromTop: nat, n: nat) {
    && made.bytes == painted && made.w == w && made.h == h && made.nCells == n && made.bearingX == 0
    && (made.bearingY - baselineFromTop) % 0x1_0000 == 0 && -0x8000 <= made.bearingY < 0x8000
  }

  /** What the rasteriser makes of the key's own font, glyph and phase, or the caller paints, is what `f` gives it. */
  ghost predicate Consistent(r: Rasteriser, op: Op, f: GlyphKey -> Raster) {
    match op
    case GetInCell(key, metrics, n) =>
      var out := r.inCell(key.font, key.glyph, metrics, n);
      out.Some? ==> TakenFor(f(key), out.value, if n == 0 then 1 else n)
    case GetNatural(key) =>
      var out := r.natural(key.font, key.glyph, key.subpx);
      out.Some? ==> TakenFor(f(key), out.value, 1)
    case GetCustom(key, w, h, base, n, painted) => IsPainting(f(key), painted, w, h, base, n)
    case _ => true
  }

  lemma {:induction false} SignedBaseline(base: nat, x: int)
    requires (x - base) % 0x1_0000 == 0 && -0x8000 <= x < 0x8000
    ensures x == AsI16(base)
  {
    assert (x + 0x8000 - (base + 0x8000)) % 0x1_0000 == 0;
  }

  lemma {:induction false} BaselineIsSigned(base: nat)
    ensures (AsI16(base) - base) % 0x1_0000 == 0 && -0x8000 <= AsI16(base) < 0x8000
    ensures base < 0x8000 ==> AsI16(base) == base
  {
  }

  lemma {:induction false} ConsistentMakes(r: Rasteriser, op: Op, f: GlyphKey -> Raster)
    requires Consistent(r, op, f) && IsGet(op) && FreshOf(r, op).Some?
    ensures FreshOf(r, op).value == f(op.key)
  {
    if op.GetCustom? { SignedBaseline(op.baselineFromTop, f(op.key).bearingY); }
  }

  lemma {:induction false} PlacedInk(a: Atlas, w: nat, h: nat)
    ensures var placed := PlaceOrEvict(a, w, h).1;
            forall k :: k in placed.ink ==> k in a.ink && placed.ink[k] == a.ink[k]
  {
  }

  lemma {:induction false} StepKeepsInk(a: Atlas, r: Rasteriser, op: Op, f: GlyphKey -> Raster)
    requires Consistent(r, op, f) && forall k :: k in a.ink ==> a.ink[k] == f(k)
    ensures var b := Step(a, r, op).1; forall k :: k in b.ink ==> b.ink[k] == f(k)
  {
    if IsGet(op) && op.key !in a.cache && FreshOf(r, op).Some? {
      ConsistentMakes(r, op, f);
      FetchKeepsInk(a, op.key, f);
    }
  }

  lemma {:induction false} FetchKeepsInk(a: Atlas, key: GlyphKey, f: GlyphKey -> Raster)
    requires key !in a.cache && forall k :: k in a.ink ==> a.ink[k] == f(k)
    ensures var b := Fetch(a, key, Some(f(key))).1; forall k :: k in b.ink ==> b.ink[k] == f(k)
  {
    PlacedInk(a, f(key).w, f(key).h);
  }

  lemma {:induction false} RunKeepsInk(a: Atlas, r: Rasteriser, ops: seq<Op>, f: GlyphKey -> Raster)
    requires forall i :: 0 <= i < |ops| ==> Consistent(r, ops[i], f)
    requires forall k :: k in a.ink ==> a.ink[k] == f(k)
    ensures var b := Run(a, r, ops); forall k :: k in b.ink ==> b.ink[k] == f(k)
  {
    if ops != [] {
      RunKeepsInk(a, r, ops[..|ops| - 1], f);
      var b, op := Run(a, r, ops[..|ops| - 1]), ops[|ops| - 1];
      StepKeepsInk(b, r, op, f);
    }
  }

  lemma {:induction false} RunKeepsSolid(a: Atlas, r: Rasteriser, ops: seq<Op>)
    requires forall i :: 0 <= i < |ops| ==> OpOk(r, a.bpp, ops[i])
    requires forall k :: k in a.ink ==> Solid(a.ink[k], a.bpp)
    ensures var b := Run(a, r, ops); b.bpp == a.bpp && forall k :: k in b.ink ==> Solid(b.ink[k], a.bpp)
  {
    if |ops| > 0 {
      RunKeepsSolid(a, r, ops[..|ops| - 1]);
      StepKeepsSolid(Run(a, r, ops[..|ops| - 1]), r, ops[|ops| - 1]);
    }
  }

  lemma {:induction false} StepKeepsSolid(a: Atlas, r: Rasteriser, op: Op)
    requires OpOk(r, a.bpp, op) && forall k :: k in a.ink ==> Solid(a.ink[k], a.bpp)
    ensures var b := Step(a, r, op).1; b.bpp == a.bpp && forall k :: k in b.ink ==> Solid(b.ink[k], a.bpp)
  {
    if IsGet(op) && op.key !in a.cache && FreshOf(r, op).Some? {
      FreshIsSolid(r, a.bpp, op);
      PlacedInk(a, FreshOf(r, op).value.w, FreshOf(r, op).value.h);
      PlaceOrEvictAddsNoKey(a, FreshOf(r, op).value.w, FreshOf(r, op).value.h);
    }
  }

  /** Byte `at` of `bytes`, and the `bpp - 1` behind it, are `pixel`. */
  predicate PixelStands(pixel: Pixel, bytes: seq<Byte>, at: int, bpp: nat) {
    0 <= at && at + bpp <= |bytes| && pixel == bytes[at..at + bpp]
  }

  /** Row by row from the corner of `e`, the texture holds `bytes`, `bpp` of them for each pixel. */
  ghost predicate HoldsRows(t: Texture, bpp: nat, e: Entry, bytes: seq<Byte>, w: nat, h: nat) {
    forall px, py :: e.u0 <= px < e.u0 + w && e.v0 <= py < e.v0 + h ==>
      PixelStands(t(px, py), bytes, ((py - e.v0) * w + (px - e.u0)) * bpp, bpp)
  }

  lemma {:induction false} PixelFits(i: nat, j: nat, w: nat, h: nat, bpp: nat)
    requires i < w && j < h
    ensures 0 <= (j * w + i) * bpp && (j * w + i) * bpp + bpp <= w * h * bpp
  {
    MulMono(j + 1, h, w);
    MulMono(j * w + i + 1, w * h, bpp);
  }

  lemma {:induction false} PixelOfStands(bytes: seq<Byte>, w: nat, h: nat, bpp: nat, i: nat, j: nat)
    requires i < w && j < h && |bytes| == w * h * bpp
    ensures PixelStands(PixelOf(bytes, w, bpp, i, j), bytes, (j * w + i) * bpp, bpp)
  {
    PixelFits(i, j, w, h, bpp);
  }

  lemma {:induction false} ShowsRows(t: Texture, bpp: nat, e: Entry, r: Raster)
    requires Shows(t, bpp, e, r) && Solid(r, bpp)
    ensures HoldsRows(t, bpp, e, r.bytes, r.w, r.h)
  {
    forall px, py | e.u0 <= px < e.u0 + r.w && e.v0 <= py < e.v0 + r.h
      ensures PixelStands(t(px, py), r.bytes, ((py - e.v0) * r.w + (px - e.u0)) * bpp, bpp)
    {
      assert Inside(e, px, py);
      PixelOfStands(r.bytes, r.w, r.h, bpp, px - e.u0, py - e.v0);
    }
  }

  /**
   The cache always agrees with rasterising afresh: after any run in which every key has one
   raster, each cached rectangle of the texture is, pixel for pixel, that key's raster.
   */
  lemma {:induction false} TextureAgreesWithRasterising(width: nat, height: nat, bpp: nat, texture: Texture,
                                                        r: Rasteriser, ops: seq<Op>, f: GlyphKey -> Raster)
    requires width < U16_SPAN && height < U16_SPAN && (bpp == 1 || bpp == 4)
    requires forall i :: 0 <= i < |ops| ==> OpOk(r, bpp, ops[i]) && Consistent(r, ops[i], f)
    ensures var b := Run(Empty(width, height, bpp, texture), r, ops);
            forall k :: k in b.cache ==>
              && Shows(b.texture, bpp, b.cache[k], f(k))
              && HoldsRows(b.texture, bpp, b.cache[k], f(k).bytes, f(k).w, f(k).h)
  {
    RunKeepsInv(width, height, bpp, texture, r, ops);
    RunKeepsInk(Empty(width, height, bpp, texture), r, ops, f);
    var b := Run(Empty(width, height, bpp, texture), r, ops);
    RunKeepsSolid(Empty(width, height, bpp, texture), r, ops);
    forall k | k in b.cache
      ensures Shows(b.texture, bpp, b.cache[k], f(k))
              && HoldsRows(b.texture, bpp, b.cache[k], f(k).bytes, f(k).w, f(k).h)
    {
      assert Shows(b.texture, b.bpp, b.cache[k], b.ink[k]);
      ShowsRows(b.texture, bpp, b.cache[k], b.ink[k]);
    }
  }

  lemma {:induction false} StepKeepsFrame(a: Atlas, r: Rasteriser, op: Op)
    requires !op.BeginFrame?
    ensures Step(a, r, op).1.frame == a.frame
  {
    if IsGet(op) { FetchKeepsFrame(a, op.key, FreshOf(r, op)); }
  }

  lemma {:induction false} FetchKeepsFrame(a: Atlas, key: GlyphKey, made: Option<Raster>)
    ensures Fetch(a, key, made).1.frame == a.frame
  {
    if made.Some? { PlaceKeepsFrame(a, made.value.w, made.value.h); }
  }

  lemma {:induction false} PlaceKeepsFrame(a: Atlas, w: nat, h: nat)
    ensures PlaceOrEvict(a, w, h).1.frame == a.frame
  {
  }

  lemma {:induction false} FrameIsLastBegun(a: Atlas, r: Rasteriser, ops: seq<Op>)
    ensures Run(a, r, ops).frame == a.frame
            || exists i :: 0 <= i < |ops| && ops[i].BeginFrame? && ops[i].id == Run(a, r, ops).frame
  {
    if ops != [] {
      FrameIsLastBegun(a, r, ops[..|ops| - 1]);
      var b, op := Run(a, r, ops[..|ops| - 1]), ops[|ops| - 1];
      if !op.BeginFrame? {
        StepKeepsFrame(b, r, op);
        if b.frame != a.frame {
          var i :| 0 <= i < |ops| - 1 && ops[..|ops| - 1][i].BeginFrame? && ops[..|ops| - 1][i].id == b.frame;
          assert ops[i].BeginFrame? && ops[i].id == b.frame;
        }
      }
    }
  }

  /** With frame ids that never fall, every reachable state has stamps within eight frames of the truth. */
  lemma {:induction false} RunKeepsStamped(width: nat, height: nat, bpp: nat, texture: Texture, r: Rasteriser,
                                           ops: seq<Op>)
    requires forall i, j :: 0 <= i < j < |ops| && ops[i].BeginFrame? && ops[j].BeginFrame? ==> ops[i].id <= ops[j].id
    ensures Stamped(Run(Empty(width, height, bpp, texture), r, ops))
  {
    if ops != [] {
      var empty, before, op := Empty(width, height, bpp, texture), ops[..|ops| - 1], ops[|ops| - 1];
      RunKeepsStamped(width, height, bpp, texture, r, before);
      FrameIsLastBegun(empty, r, before);
      if IsGet(op) { FetchKeepsStamped(Run(empty, r, before), op.key, FreshOf(r, op)); }
    }
  }
}

/** What holds in every reachable state of the glyph atlas. */
module AtlasInvariant {
  // The shelves are stacked, live rectangles are padded apart, the cache and the shelves list the
  // same keys, and the texture still holds the bytes rasterised for every cached key.

  import opened Wrappers
  import opened AtlasModel

  type Cache = map<GlyphKey, Entry>

  /* ---------------------------------------------------------------- the invariant */

  /** Shelves lie one under the other without gaps, inside the atlas. */
  ghost predicate Stacked(shelves: seq<Shelf>, width: nat, height: nat) {
    && (shelves != [] ==> shelves[0].y == 0)
    && (forall i, j :: 0 <= i < j < |shelves| && j == i + 1 ==> shelves[j].y == shelves[i].y + shelves[i].h)
    && (forall i :: 0 <= i < |shelves| ==> shelves[i].h >= 2 * PAD && shelves[i].xUsed <= width)
    && Bottom(shelves) <= height
  }

  /** The padded rectangle of `e` lies inside the used band of `s`. */
  predicate Sits(e: Entry, s: Shelf) {
    && e.v0 == s.y + PAD && e.v0 <= e.v1 && e.v1 + PAD <= s.y + s.h
    && PAD <= e.u0 <= e.u1 && e.u1 + PAD <= s.xUsed
    && e.pxW == e.u1 - e.u0 && e.pxH == e.v1 - e.v0
  }

  /** Every listed key is cached and sits on the shelf; padded rectangles run left to right. */
  ghost predicate ShelfOk(s: Shelf, cache: Cache) {
    && (forall j :: 0 <= j < |s.entries| ==> s.entries[j] in cache && Sits(cache[s.entries[j]], s))
    && (forall i, j :: 0 <= i < j < |s.entries| ==>
          cache[s.entries[i]].u1 + PAD <= cache[s.entries[j]].u0 - PAD)
  }

  predicate OnShelf(shelves: seq<Shelf>, i: int, k: GlyphKey) {
    0 <= i < |shelves| && k in shelves[i].entries
  }

  ghost predicate Listed(shelves: seq<Shelf>, k: GlyphKey) {
    exists i :: OnShelf(shelves, i, k)
  }

  ghost predicate Packed(shelves: seq<Shelf>, cache: Cache, width: nat, height: nat) {
    && Stacked(shelves, width, height)
    && (forall i :: 0 <= i < |shelves| ==> ShelfOk(shelves[i], cache))
    && (forall k :: k in cache ==> Listed(shelves, k))
  }

  predicate Inside(e: Entry, px: int, py: int) {
    e.u0 <= px < e.u1 && e.v0 <= py < e.v1
  }

  /** The metrics of `e` and the texture inside it are exactly those of the raster `r`. */
  ghost predicate Shows(t: Texture, bpp: nat, e: Entry, r: Raster) {
    && e.pxW == r.w && e.pxH == r.h && e.u1 == e.u0 + r.w && e.v1 == e.v0 + r.h
    && e.nCells == r.nCells && e.bearingX == r.bearingX && e.bearingY == r.bearingY
    && forall px, py :: Inside(e, px, py) ==> t(px, py) == PixelOf(r.bytes, r.w, bpp, px - e.u0, py - e.v0)
  }

  ghost predicate Painted(a: Atlas) {
    && a.ink.Keys == a.cache.Keys && a.access.Keys == a.cache.Keys
    && forall k :: k in a.cache ==> Shows(a.texture, a.bpp, a.cache[k], a.ink[k])
  }

  ghost predicate Inv(a: Atlas) {
    && a.width < U16_SPAN && a.height < U16_SPAN && (a.bpp == 1 || a.bpp == 4)
    && Packed(a.shelves, a.cache, a.width, a.height)
    && Painted(a)
  }

  /* ---------------------------------------------------------------- what it says */

  lemma {:induction false} StackedInOrder(shelves: seq<Shelf>, width: nat, height: nat, i: nat, j: nat)
    requires Stacked(shelves, width, height) && i < j < |shelves|
    ensures shelves[i].y + shelves[i].h <= shelves[j].y
    decreases j - i
  {
    if i + 1 < j { StackedInOrder(shelves, width, height, i, j - 1); }
  }

  /** Shelf `i` ends above shelf `j` when `i` comes first, and every shelf ends inside the atlas. */
  lemma {:induction false} BandsAreApart(shelves: seq<Shelf>, width: nat, height: nat, i: nat, j: nat)
    requires Stacked(shelves, width, height) && i < |shelves| && j < |shelves|
    ensures i < j ==> shelves[i].y + shelves[i].h <= shelves[j].y
    ensures j < i ==> shelves[j].y + shelves[j].h <= shelves[i].y
    ensures shelves[i].y + shelves[i].h <= height && shelves[i].xUsed <= width
  {
    if i < |shelves| - 1 { StackedInOrder(shelves, width, height, i, |shelves| - 1); }
    if i < j { StackedInOrder(shelves, width, height, i, j); }
    if j < i { StackedInOrder(shelves, width, height, j, i); }
  }

  /** The rectangle of `e` grown by the 1-px border. */
  predicate InPadded(e: Entry, px: int, py: int) {
    e.u0 - 1 <= px < e.u1 + 1 && e.v0 - 1 <= py < e.v1 + 1
  }

  /** Where a cached key is listed. */
  lemma {:induction false} PlaceOf(shelves: seq<Shelf>, cache: Cache, width: nat, height: nat, k: GlyphKey)
    returns (i: nat, j: nat)
    requires Packed(shelves, cache, width, height) && k in cache
    ensures i < |shelves| && j < |shelves[i].entries| && shelves[i].entries[j] == k
    ensures Sits(cache[k], shelves[i]) && ShelfOk(shelves[i], cache)
  {
    i :| OnShelf(shelves, i, k);
    j :| 0 <= j < |shelves[i].entries| && shelves[i].entries[j] == k;
    assert ShelfOk(shelves[i], cache);
  }

  /** Two different cached keys never share a padded pixel, and every padded pixel is on the atlas. */
  lemma {:induction false} LiveRectanglesAreApart(a: Atlas, k: GlyphKey, k': GlyphKey)
    requires Inv(a) && k in a.cache && k' in a.cache && k != k'
    ensures forall px, py :: !(InPadded(a.cache[k], px, py) && InPadded(a.cache[k'], px, py))
    ensures forall px, py :: InPadded(a.cache[k], px, py) ==> 0 <= px < a.width && 0 <= py < a.height
  {
    var i, j := PlaceOf(a.shelves, a.cache, a.width, a.height, k);
    var i', j' := PlaceOf(a.shelves, a.cache, a.width, a.height, k');
    BandsAreApart(a.shelves, a.width, a.height, i, i');
    assert i == i' ==> j < j' || j' < j;
    RectanglesApart(a.cache[k], a.cache[k']);
  }

  lemma {:induction false} RectanglesApart(e: Entry, e': Entry)
    requires e.u1 + 1 <= e'.u0 - 1 || e'.u1 + 1 <= e.u0 - 1 || e.v1 + 1 <= e'.v0 - 1 || e'.v1 + 1 <= e.v0 - 1
    ensures forall px, py :: !(InPadded(e, px, py) && InPadded(e', px, py))
  {
  }

  /** Each listed key is cached, and no key is listed twice. */
  lemma {:induction false} CacheMatchesShelves(shelves: seq<Shelf>, cache: Cache, width: nat, height: nat)
    requires Packed(shelves, cache, width, height)
    ensures forall k :: k in cache <==> Listed(shelves, k)
    ensures forall i, i', k :: OnShelf(shelves, i, k) && OnShelf(shelves, i', k) ==> i == i'
    ensures forall i, j, j' :: 0 <= i < |shelves| && 0 <= j < j' < |shelves[i].entries| ==>
              shelves[i].entries[j] != shelves[i].entries[j']
  {
    forall i, k | OnShelf(shelves, i, k) ensures k in cache && Sits(cache[k], shelves[i]) {
      assert ShelfOk(shelves[i], cache);
    }
    forall i, i', k | OnShelf(shelves, i, k) && OnShelf(shelves, i', k) ensures i == i' {
      assert Sits(cache[k], shelves[i]) && Sits(cache[k], shelves[i']);
      BandsAreApart(shelves, width, height, i, i');
    }
    forall i, j, j' | 0 <= i < |shelves| && 0 <= j < j' < |shelves[i].entries|
      ensures shelves[i].entries[j] != shelves[i].entries[j']
    {
      assert ShelfOk(shelves[i], cache);
    }
  }

  lemma {:induction false} DivBelow(at: nat, n: nat, d: nat)
    requires d > 0 && at < n * d
    ensures at / d < n
  {
    if at / d >= n { MulMono(n, at / d, d); }
  }

  lemma {:induction false} MulMono(x: nat, y: nat, d: nat)
    requires x <= y
    ensures x * d <= y * d
  {
  }

  /** Byte `at` of a raster is part of the pixel at column `at / bpp % w` of row `at / bpp / w`. */
  lemma {:induction false} ByteInPixel(b: seq<Byte>, w: nat, h: nat, bpp: nat, at: nat)
    returns (i: nat, j: nat, from: nat)
    requires bpp > 0 && w > 0 && |b| == h * w * bpp && at < |b|
    ensures i == at / bpp % w && j == at / bpp / w && from == at / bpp * bpp
    ensures i < w && j < h && from <= at < from + bpp <= |b|
    ensures (j * w + i) * bpp == from
  {
    var p := UnitAt(at, h * w, bpp);
    i, j, from := p % w, p / w, p * bpp;
    DivBelow(p, h, w);
    RowAndColumn(p, w);
  }

  /** Place `at` of `n` units of `d` lies in unit `at / d`. */
  lemma {:induction false} UnitAt(at: nat, n: nat, d: nat) returns (p: nat)
    requires d > 0 && at < n * d
    ensures p == at / d < n && p * d <= at < p * d + d <= n * d
  {
    p := at / d;
    DivBelow(at, n, d);
    MulMono(p + 1, n, d);
    assert (p + 1) * d == p * d + d;
  }

  lemma {:induction false} RowAndColumn(p: nat, w: nat)
    requires w > 0
    ensures p / w * w + p % w == p && p % w < w
  {
  }

  /** Equal pixels at every position mean equal buffers: `Shows` leaves no byte open. */
  lemma {:induction false} PixelsDetermineBytes(b: seq<Byte>, b': seq<Byte>, w: nat, h: nat, bpp: nat)
    requires bpp > 0 && w > 0 && |b| == h * w * bpp && |b'| == |b|
    requires forall i, j :: 0 <= i < w && 0 <= j < h ==> PixelOf(b, w, bpp, i, j) == PixelOf(b', w, bpp, i, j)
    ensures b == b'
  {
    forall at | 0 <= at < |b| ensures b[at] == b'[at] {
      var i, j, from := ByteInPixel(b, w, h, bpp, at);
      assert PixelOf(b, w, bpp, i, j) == PixelOf(b', w, bpp, i, j);
      assert b[from..from + bpp][at - from] == b'[from..from + bpp][at - from];
    }
  }

  /* ---------------------------------------------------------------- placing */

  /** A free spot: inside a shelf's band, just left of its cursor and right of everything it lists. */
  ghost predicate FreeSpot(shelves: seq<Shelf>, cache: Cache, s: Spot, w: nat, h: nat) {
    && s.shelf < |shelves|
    && var shelf := shelves[s.shelf];
    && s.y == shelf.y + PAD && s.y + h + PAD <= shelf.y + shelf.h
    && s.x >= PAD && s.x + w + PAD == shelf.xUsed
    && forall j :: 0 <= j < |shelf.entries| ==>
         shelf.entries[j] in cache && cache[shelf.entries[j]].u1 + PAD <= s.x - PAD
  }

  /** What a `place` may do to the shelves: move cursors right, append one empty-listed shelf. */
  predicate OnlyCursorsMoved(shelves: seq<Shelf>, after: seq<Shelf>) {
    && |shelves| <= |after| <= |shelves| + 1
    && (forall i :: 0 <= i < |shelves| ==>
          && after[i].y == shelves[i].y && after[i].h == shelves[i].h
          && after[i].entries == shelves[i].entries && after[i].xUsed >= shelves[i].xUsed)
    && (|shelves| < |after| ==> after[|shelves|].entries == [])
  }

  lemma {:induction false} CursorsKeepListed(shelves: seq<Shelf>, after: seq<Shelf>, cache: Cache)
    requires OnlyCursorsMoved(shelves, after)
    requires forall i :: 0 <= i < |shelves| ==> ShelfOk(shelves[i], cache)
    requires forall k :: k in cache ==> Listed(shelves, k)
    ensures forall i :: 0 <= i < |after| ==> ShelfOk(after[i], cache)
    ensures forall k :: k in cache ==> Listed(after, k)
  {
    forall i | 0 <= i < |after| ensures ShelfOk(after[i], cache) {
      if i < |shelves| { assert ShelfOk(shelves[i], cache); }
    }
    forall k | k in cache ensures Listed(after, k) {
      assert Listed(shelves, k);
      var i :| OnShelf(shelves, i, k);
      assert OnShelf(after, i, k);
    }
  }

  lemma {:induction false} PlaceMovesOneCursor(shelves: seq<Shelf>, width: nat, height: nat, w: nat, h: nat)
    ensures var (spot, after) := Place(shelves, width, height, w, h);
            && OnlyCursorsMoved(shelves, after)
            && (spot.None? ==> after == shelves)
            && (spot.Some? ==>
                  && var s := after[spot.value.shelf];
                  && spot.value.y == s.y + PAD && spot.value.y + h + PAD <= s.y + s.h
                  && spot.value.x + w + PAD == s.xUsed
                  && spot.value.x
                     == (if spot.value.shelf < |shelves| then shelves[spot.value.shelf].xUsed else 0) + PAD)
  {
  }

  /** A successful `place` finds a free spot and keeps the packing. */
  lemma {:induction false} PlaceKeepsPacked(shelves: seq<Shelf>, cache: Cache, width: nat, height: nat, w: nat, h: nat)
    requires Packed(shelves, cache, width, height)
    ensures var (spot, after) := Place(shelves, width, height, w, h);
            && Packed(after, cache, width, height)
            && (spot.None? ==> after == shelves)
            && (spot.Some? ==> FreeSpot(after, cache, spot.value, w, h))
  {
    var (spot, after) := Place(shelves, width, height, w, h);
    PlaceKeepsStacked(shelves, width, height, w, h);
    PlaceMovesOneCursor(shelves, width, height, w, h);
    CursorsKeepListed(shelves, after, cache);
    if spot.Some? && spot.value.shelf < |shelves| { assert ShelfOk(shelves[spot.value.shelf], cache); }
  }

  lemma {:induction false} PlaceKeepsStacked(shelves: seq<Shelf>, width: nat, height: nat, w: nat, h: nat)
    requires Stacked(shelves, width, height)
    ensures Stacked(Place(shelves, width, height, w, h).1, width, height)
  {
  }

  /* ---------------------------------------------------------------- evicting */

  lemma {:induction false} RecycleKeepsPacked(a: Atlas, i: nat)
    requires Packed(a.shelves, a.cache, a.width, a.height) && i < |a.shelves|
    ensures Packed(Recycle(a, i).shelves, Recycle(a, i).cache, a.width, a.height)
  {
    var b := Recycle(a, i);
    CacheMatchesShelves(a.shelves, a.cache, a.width, a.height);
    forall j | 0 <= j < |b.shelves| ensures ShelfOk(b.shelves[j], b.cache) {
      assert ShelfOk(a.shelves[j], a.cache);
      if j != i {
        forall n | 0 <= n < |b.shelves[j].entries| ensures b.shelves[j].entries[n] in b.cache {
          var k := b.shelves[j].entries[n];
          assert OnShelf(a.shelves, j, k);
          assert !OnShelf(a.shelves, i, k);
        }
      }
    }
    forall k | k in b.cache ensures Listed(b.shelves, k) {
      var j :| OnShelf(a.shelves, j, k);
      assert OnShelf(b.shelves, j, k);
    }
  }

  lemma {:induction false} PlaceInKeepsInv(a: Atlas, w: nat, h: nat)
    requires Inv(a)
    ensures var (spot, b) := PlaceIn(a, w, h);
            && Inv(b) && b.cache == a.cache
            && (spot.Some? ==> FreeSpot(b.shelves, b.cache, spot.value, w, h))
  {
    PlaceKeepsPacked(a.shelves, a.cache, a.width, a.height, w, h);
  }

  lemma {:induction false} EvictKeepsInv(a: Atlas, neededW: nat, neededH: nat)
    requires Inv(a)
    ensures Inv(EvictLruShelf(a, neededW, neededH).1)
  {
    if neededW <= a.width {
      var stalest := Stalest(a.shelves, a.cache, neededH, |a.shelves|);
      if stalest.Some? { RecycleKeepsPacked(a, stalest.value); }
    }
  }

  lemma {:induction false} RebuildKeepsInv(a: Atlas)
    requires Inv(a)
    ensures Inv(Rebuild(a))
  {
  }

  lemma {:induction false} PlaceOrEvictKeepsInv(a: Atlas, w: nat, h: nat)
    requires Inv(a)
    ensures var (spot, b) := PlaceOrEvict(a, w, h);
            Inv(b) && (spot.Some? ==> FreeSpot(b.shelves, b.cache, spot.value, w, h))
  {
    var a0 := a.(counters := a.counters.(rasterised := SaturatingInc(a.counters.rasterised, U32_MAX)));
    PlaceInKeepsInv(a0, w, h);
    EvictKeepsInv(a0, w + 2 * PAD, h + 2 * PAD);
    var a1 := EvictLruShelf(a0, w + 2 * PAD, h + 2 * PAD).1;
    PlaceInKeepsInv(a1, w, h);
    RebuildKeepsInv(a1);
    PlaceInKeepsInv(Rebuild(a1), w, h);
  }

  /* ---------------------------------------------------------------- recording */

  /** A buffer is skipped by `upload` only when it has no pixel. */
  lemma {:induction false} OnlyEmptyRastersAreSkipped(r: Raster, bpp: nat)
    requires bpp > 0 && Solid(r, bpp) && r.w > 0 && r.h > 0
    ensures r.bytes != []
  {
    assert r.w * r.h > 0;
    assert r.w * r.h * bpp > 0;
  }

  /** The casts to u16 lose nothing for a free spot of an atlas with 16-bit dimensions. */
  lemma {:induction false} FreeSpotFits16(a: Atlas, s: Spot, r: Raster)
    requires Inv(a) && FreeSpot(a.shelves, a.cache, s, r.w, r.h)
    ensures NewEntry(r, s, a.frame)
            == Entry(s.x, s.y, s.x + r.w, s.y + r.h, r.w, r.h, r.nCells, r.bearingX, r.bearingY, a.frame)
    ensures s.x + r.w + PAD <= a.width && s.y + r.h + PAD <= a.height
  {
    BandsAreApart(a.shelves, a.width, a.height, s.shelf, s.shelf);
  }

  /** Writing the raster at a free spot touches no live rectangle. */
  lemma {:induction false} BlitMissesLive(a: Atlas, r: Raster, s: Spot, k: GlyphKey)
    requires Inv(a) && FreeSpot(a.shelves, a.cache, s, r.w, r.h) && k in a.cache
    ensures forall px, py :: Inside(a.cache[k], px, py) ==> !(s.x <= px < s.x + r.w && s.y <= py < s.y + r.h)
  {
    var i, j := PlaceOf(a.shelves, a.cache, a.width, a.height, k);
    BandsAreApart(a.shelves, a.width, a.height, i, s.shelf);
    ApartFrom(a.cache[k], s.x, s.y, r.w, r.h);
  }

  lemma {:induction false} ApartFrom(e: Entry, x: nat, y: nat, w: nat, h: nat)
    requires e.u1 <= x || e.v1 <= y || y + h <= e.v0
    ensures forall px, py :: Inside(e, px, py) ==> !(x <= px < x + w && y <= py < y + h)
  {
  }

  /** Appending the key of a free spot's entry to its shelf keeps that shelf and the others in order. */
  lemma {:induction false} AppendKeepsShelf(before: Shelf, cache: Cache, key: GlyphKey, e: Entry, chosen: bool)
    requires ShelfOk(before, cache) && key !in cache
    requires chosen ==> Sits(e, before)
    requires chosen ==> forall j :: 0 <= j < |before.entries| ==> cache[before.entries[j]].u1 + PAD <= e.u0 - PAD
    ensures ShelfOk(if chosen then before.(entries := before.entries + [key]) else before, cache[key := e])
  {
    forall j | 0 <= j < |before.entries|
      ensures before.entries[j] in cache && before.entries[j] != key
    {
    }
  }

  lemma {:induction false} AppendKeepsPacked(shelves: seq<Shelf>, cache: Cache, width: nat, height: nat,
                                             key: GlyphKey, e: Entry, i: nat)
    requires Packed(shelves, cache, width, height) && key !in cache && i < |shelves| && Sits(e, shelves[i])
    requires forall j :: 0 <= j < |shelves[i].entries| ==>
               shelves[i].entries[j] in cache && cache[shelves[i].entries[j]].u1 + PAD <= e.u0 - PAD
    ensures Packed(shelves[i := shelves[i].(entries := shelves[i].entries + [key])], cache[key := e], width, height)
  {
    var entries := shelves[i].entries + [key];
    var after := shelves[i := shelves[i].(entries := entries)];
    forall n | 0 <= n < |after| ensures ShelfOk(after[n], cache[key := e]) {
      AppendKeepsShelf(shelves[n], cache, key, e, n == i);
    }
    forall k | k in cache[key := e] ensures Listed(after, k) {
      if k == key {
        assert entries[|entries| - 1] == key;
        assert OnShelf(after, i, k);
      } else {
        assert Listed(shelves, k);
        var n :| OnShelf(shelves, n, k);
        assert OnShelf(after, n, k);
      }
    }
  }

  lemma {:induction false} RecordKeepsShows(a: Atlas, key: GlyphKey, r: Raster, s: Spot, k: GlyphKey)
    requires Inv(a) && FreeSpot(a.shelves, a.cache, s, r.w, r.h) && k in a.cache
    ensures Shows(Record(a, key, r, s).texture, a.bpp, a.cache[k], a.ink[k])
  {
    assert Shows(a.texture, a.bpp, a.cache[k], a.ink[k]);
    BlitMissesLive(a, r, s, k);
  }

  lemma {:induction false} RecordKeepsPainted(a: Atlas, key: GlyphKey, r: Raster, s: Spot)
    requires Inv(a) && Solid(r, a.bpp) && FreeSpot(a.shelves, a.cache, s, r.w, r.h)
    ensures Painted(Record(a, key, r, s))
  {
    var b := Record(a, key, r, s);
    RecordShowsRaster(a, key, r, s);
    forall k | k in b.cache ensures Shows(b.texture, b.bpp, b.cache[k], b.ink[k]) {
      if k != key { RecordKeepsShows(a, key, r, s, k); }
    }
  }

  lemma {:induction false} RecordKeepsInv(a: Atlas, key: GlyphKey, r: Raster, s: Spot)
    requires Inv(a) && key !in a.cache && Solid(r, a.bpp) && FreeSpot(a.shelves, a.cache, s, r.w, r.h)
    ensures Inv(Record(a, key, r, s))
  {
    FreeSpotFits16(a, s, r);
    AppendKeepsPacked(a.shelves, a.cache, a.width, a.height, key, NewEntry(r, s, a.frame), s.shelf);
    RecordKeepsPainted(a, key, r, s);
  }

  lemma {:induction false} RecordShowsRaster(a: Atlas, key: GlyphKey, r: Raster, s: Spot)
    requires Inv(a) && Solid(r, a.bpp) && FreeSpot(a.shelves, a.cache, s, r.w, r.h)
    ensures Shows(Record(a, key, r, s).texture, a.bpp, NewEntry(r, s, a.frame), r)
  {
    FreeSpotFits16(a, s, r);
    if r.w > 0 && r.h > 0 { OnlyEmptyRastersAreSkipped(r, a.bpp); }
  }
}

/** How long an entry handed out by the glyph atlas stays good, and how it can go bad. */
module AtlasEntries {
  // A pane keeps the entries of its last build for as long as the rebuild count stands still.  That
  // is enough as long as no shelf is recycled either, and not otherwise.

  import opened Wrappers
  import opened AtlasModel
  import opened AtlasInvariant
  import opened AtlasRuns

  /** No rebuild and no recycled shelf between `a` and `b`. */
  predicate Quiet(a: Atlas, b: Atlas) {
    b.counters.rebuilds == a.counters.rebuilds && b.counters.evicted == a.counters.evicted
  }

  predicate CountsRise(a: Atlas, b: Atlas) {
    b.counters.rebuilds >= a.counters.rebuilds && b.counters.evicted >= a.counters.evicted
  }

  /** `k` keeps its rectangle, its metrics and its raster; only the stamp may differ. */
  predicate KeepsEntry(a: Atlas, b: Atlas, k: GlyphKey)
    requires k in a.cache && k in a.ink
  {
    && k in b.cache && b.cache[k] == a.cache[k].(lastUsed := b.cache[k].lastUsed)
    && k in b.ink && b.ink[k] == a.ink[k]
  }

  ghost predicate KeepsEntries(a: Atlas, b: Atlas)
    requires a.ink.Keys == a.cache.Keys
  {
    forall k :: k in a.cache ==> KeepsEntry(a, b, k)
  }

  /* ---------------------------------------------------------------- one step */

  lemma {:induction false} PlaceCounts(a: Atlas, w: nat, h: nat)
    ensures CountsRise(a, PlaceOrEvict(a, w, h).1)
    ensures Quiet(a, PlaceOrEvict(a, w, h).1) ==>
              PlaceOrEvict(a, w, h).1.cache == a.cache && PlaceOrEvict(a, w, h).1.ink == a.ink
  {
  }

  lemma {:induction false} FetchKeepsEntries(a: Atlas, key: GlyphKey, made: Option<Raster>)
    requires a.ink.Keys == a.cache.Keys
    ensures var b := Fetch(a, key, made).1;
            b.ink.Keys == b.cache.Keys && CountsRise(a, b) && (Quiet(a, b) ==> KeepsEntries(a, b))
  {
    if key !in a.cache && made.Some? {
      PlaceCounts(a, made.value.w, made.value.h);
      PlaceKeepsInkKeys(a, made.value.w, made.value.h);
    }
  }

  lemma {:induction false} PlaceKeepsInkKeys(a: Atlas, w: nat, h: nat)
    requires a.ink.Keys == a.cache.Keys
    ensures PlaceOrEvict(a, w, h).1.ink.Keys == PlaceOrEvict(a, w, h).1.cache.Keys
  {
  }

  lemma {:induction false} StepKeepsEntries(a: Atlas, r: Rasteriser, op: Op)
    requires a.ink.Keys == a.cache.Keys
    ensures var b := Step(a, r, op).1;
            b.ink.Keys == b.cache.Keys && CountsRise(a, b) && (Quiet(a, b) ==> KeepsEntries(a, b))
  {
    if IsGet(op) { FetchKeepsEntries(a, op.key, FreshOf(r, op)); }
  }

  /* ---------------------------------------------------------------- whole runs */

  lemma {:induction false} KeepsEntriesOn(a: Atlas, b: Atlas, c: Atlas)
    requires a.ink.Keys == a.cache.Keys && b.ink.Keys == b.cache.Keys
    requires KeepsEntries(a, b) && KeepsEntries(b, c)
    ensures KeepsEntries(a, c)
  {
    forall k | k in a.cache ensures KeepsEntry(a, c, k) {
      assert KeepsEntry(a, b, k) && KeepsEntry(b, c, k);
    }
  }

  lemma {:induction false} RunKeepsEntries(a: Atlas, r: Rasteriser, ops: seq<Op>)
    requires a.ink.Keys == a.cache.Keys
    ensures var b := Run(a, r, ops);
            b.ink.Keys == b.cache.Keys && CountsRise(a, b) && (Quiet(a, b) ==> KeepsEntries(a, b))
  {
    if |ops| > 0 {
      var b, op := Run(a, r, ops[..|ops| - 1]), ops[|ops| - 1];
      RunKeepsEntries(a, r, ops[..|ops| - 1]);
      StepKeepsEntries(b, r, op);
      var c := Step(b, r, op).1;
      if Quiet(a, c) { KeepsEntriesOn(a, b, c); }
    }
  }

  lemma {:induction false} RunKeepsInvFrom(a: Atlas, r: Rasteriser, ops: seq<Op>)
    requires Inv(a) && forall i :: 0 <= i < |ops| ==> OpOk(r, a.bpp, ops[i])
    ensures Inv(Run(a, r, ops)) && Run(a, r, ops).bpp == a.bpp
  {
    if |ops| > 0 {
      RunKeepsInvFrom(a, r, ops[..|ops| - 1]);
      StepKeepsInv(Run(a, r, ops[..|ops| - 1]), r, ops[|ops| - 1]);
    }
  }

  lemma {:induction false} SamePixels(a: Atlas, b: Atlas, k: GlyphKey, px: int, py: int)
    requires Painted(a) && Painted(b) && a.bpp == b.bpp && k in a.cache && KeepsEntry(a, b, k)
    requires Inside(a.cache[k], px, py)
    ensures b.texture(px, py) == a.texture(px, py)
  {
    var e := a.cache[k];
    assert Shows(a.texture, a.bpp, e, a.ink[k]) && Shows(b.texture, b.bpp, b.cache[k], a.ink[k]);
    assert Inside(b.cache[k], px, py);
  }

  /**
   While neither counter moves, over any run from a reachable state, every entry handed out stays
   good: same rectangle, same metrics, and the texture inside it unchanged.
   */
  lemma {:induction false} QuietRunKeepsHandedOut(a: Atlas, r: Rasteriser, ops: seq<Op>, k: GlyphKey)
    requires Inv(a) && forall i :: 0 <= i < |ops| ==> OpOk(r, a.bpp, ops[i])
    requires Quiet(a, Run(a, r, ops)) && k in a.cache
    ensures KeepsEntry(a, Run(a, r, ops), k)
    ensures forall px, py :: Inside(a.cache[k], px, py) ==> Run(a, r, ops).texture(px, py) == a.texture(px, py)
  {
    RunKeepsEntries(a, r, ops);
    RunKeepsInvFrom(a, r, ops);
    forall px, py | Inside(a.cache[k], px, py) ensures Run(a, r, ops).texture(px, py) == a.texture(px, py) {
      SamePixels(a, Run(a, r, ops), k, px, py);
    }
  }

  /* ---------------------------------------------------------------- the recycled rectangle */

  /** A 2 by 2 glyph on an atlas with room for one. */
  function Painting(key: GlyphKey, ink: Byte): Op {
    GetCustom(key, 2, 2, 0, 1, [ink, ink, ink, ink])
  }

  lemma {:induction false} InkedPixel(t: Texture, ink: Byte)
    ensures Blit(t, [ink, ink, ink, ink], 2, 2, 1, 1, 1)(1, 1) == [ink]
  {
    var bytes := [ink, ink, ink, ink];
    assert bytes[0..1] == [ink];
    assert PixelOf(bytes, 2, 1, 0, 0) == bytes[0..1];
  }

  lemma {:induction false} PlaceFirst()
    ensures Place([], 4, 4, 2, 2) == (Some(Spot(1, 1, 0)), [Shelf(0, 4, 4, [])])
  {
    var none: seq<Shelf> := [];
    assert FirstFit(none, 4, 4, 4, 0) == 0 && Bottom(none) == 0;
    assert none + [Shelf(0, 4, 4, [])] == [Shelf(0, 4, 4, [])];
  }

  lemma {:induction false} PlaceSecond(k: GlyphKey)
    ensures Place([Shelf(0, 4, 4, [k])], 4, 4, 2, 2).0 == None
    ensures Place([Shelf(0, 4, 0, [])], 4, 4, 2, 2) == (Some(Spot(1, 1, 0)), [Shelf(0, 4, 4, [])])
  {
    var free := [Shelf(0, 4, 0, [])];
    assert FirstFit(free, 4, 4, 4, 0) == 0;
    assert free[0 := Shelf(0, 4, 4, [])] == [Shelf(0, 4, 4, [])];
  }

  lemma {:induction false} FirstPainting(texture: Texture, r: Rasteriser, k: GlyphKey)
    ensures var a := Step(Empty(4, 4, 1, texture), r, Painting(k, 1)).1;
            && a.cache == map[k := Entry(1, 1, 3, 3, 2, 2, 1, 0, 0, 0)]
            && a.shelves == [Shelf(0, 4, 4, [k])] && a.width == 4 && a.height == 4 && a.bpp == 1
            && a.texture(1, 1) == [1]
  {
    PlaceFirst();
    var none: seq<GlyphKey> := [];
    assert none + [k] == [k];
    assert [Shelf(0, 4, 4, none)][0 := Shelf(0, 4, 4, none + [k])] == [Shelf(0, 4, 4, [k])];
    InkedPixel(texture, 1);
  }

  lemma {:induction false} SecondSpot(a: Atlas, k: GlyphKey)
    requires a.cache.Keys == {k} && a.shelves == [Shelf(0, 4, 4, [k])] && a.width == 4 && a.height == 4
    ensures var (spot, b) := PlaceOrEvict(a, 2, 2);
            && spot == Some(Spot(1, 1, 0)) && k !in b.cache && b.texture == a.texture && b.bpp == a.bpp
            && b.counters.rebuilds == a.counters.rebuilds && b.counters.evicted == a.counters.evicted + 1
  {
    PlaceSecond(k);
    assert Stalest(a.shelves, a.cache, 4, 1) == Some(0);
    assert a.shelves[0 := Shelf(0, 4, 0, [])] == [Shelf(0, 4, 0, [])];
  }

  lemma {:induction false} SecondPainting(a: Atlas, r: Rasteriser, k: GlyphKey, k': GlyphKey)
    requires k != k' && a.cache.Keys == {k} && a.shelves == [Shelf(0, 4, 4, [k])]
    requires a.width == 4 && a.height == 4 && a.bpp == 1
    ensures var b := Step(a, r, Painting(k', 2)).1;
            && b.counters.rebuilds == a.counters.rebuilds && b.counters.evicted == a.counters.evicted + 1
            && k !in b.cache && b.texture(1, 1) == [2]
  {
    SecondSpot(a, k);
    InkedPixel(a.texture, 2);
  }

  /**
   The rebuild count alone does not tell: with room for one glyph the second one recycles the
   shelf, the count stands still, and the rectangle handed out for the first shows the second.
   */
  lemma {:induction false} RecycledRectangleShowsAnother(texture: Texture, r: Rasteriser, k: GlyphKey, k': GlyphKey)
    requires k != k'
    ensures var a := Step(Empty(4, 4, 1, texture), r, Painting(k, 1)).1;
            var b := Step(a, r, Painting(k', 2)).1;
            && b.counters.rebuilds == a.counters.rebuilds && k in a.cache && Inside(a.cache[k], 1, 1)
            && k !in b.cache && a.texture(1, 1) == [1] && b.texture(1, 1) == [2]
  {
    FirstPainting(texture, r, k);
    SecondPainting(Step(Empty(4, 4, 1, texture), r, Painting(k, 1)).1, r, k, k');
  }
}

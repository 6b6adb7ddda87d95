/**
 The glyph atlas as src/glyph_atlas.rs runs it: fields updated in place, shelves scanned by
 loops.  Each method is proved to do what AtlasModel says on the abstract value `View()`,
 and to keep the invariant of AtlasInvariant.
 */
module GlyphAtlas {
  import opened Wrappers
  import opened AtlasModel
  import opened AtlasInvariant
  import opened AtlasRuns

  class GlyphAtlas {
    const width: nat
    const height: nat
    const bpp: nat
    const rasteriser: Rasteriser

    var shelves: seq<Shelf>
    var cache: map<GlyphKey, Entry>
    var frame: U64
    var counters: Counters

    /** What the sink holds, the raster committed for each cached key, and each key's true last access. */
    ghost var texture: Texture
    ghost var ink: map<GlyphKey, Raster>
    ghost var access: map<GlyphKey, U64>

    ghost function View(): Atlas
      reads this
    {
      Atlas(width, height, bpp, shelves, cache, frame, counters, texture, ink, access)
    }

    ghost predicate Valid()
      reads this
    {
      Inv(View())
    }

    /** An empty atlas over a sink with these dimensions; `held` is whatever the texture holds already. */
    constructor (width: nat, height: nat, bpp: nat, rasteriser: Rasteriser, ghost held: Texture)
      requires width < U16_SPAN && height < U16_SPAN && (bpp == 1 || bpp == 4)
      ensures Valid() && View() == Empty(width, height, bpp, held) && this.rasteriser == rasteriser
    {
      this.width, this.height, this.bpp, this.rasteriser := width, height, bpp, rasteriser;
      shelves, cache, frame, counters := [], map[], 0, Counters(0, 0, 0, 0);
      texture, ink, access := held, map[], map[];
    }

    method BeginFrame(id: U64)
      requires Valid()
      modifies this`frame
      ensures Valid() && View() == Step(old(View()), rasteriser, Op.BeginFrame(id)).1 && frame == id
    {
      frame := id;
    }

    method TakeRasterised() returns (n: nat)
      requires Valid()
      modifies this`counters
      ensures Valid() && View() == Step(old(View()), rasteriser, Op.TakeRasterised).1
      ensures n == old(counters.rasterised) && counters == old(counters).(rasterised := 0)
    {
      n := counters.rasterised;
      counters := counters.(rasterised := 0);
    }

    method Place(w: nat, h: nat) returns (spot: Option<Spot>)
      modifies this`shelves
      ensures (spot, View()) == PlaceIn(old(View()), w, h)
    {
      var padW, padH := w + 2 * PAD, h + 2 * PAD;
      if padW > width {
        return None;
      }
      for idx := 0 to |shelves|
        invariant shelves == old(shelves)
        invariant FirstFit(shelves, padW, padH, width, 0) == FirstFit(shelves, padW, padH, width, idx)
      {
        var s := shelves[idx];
        if s.h >= padH && 4 * (s.h - padH) <= s.h && s.xUsed + padW <= width {
          shelves := shelves[idx := s.(xUsed := s.xUsed + padW)];
          return Some(Spot(s.xUsed + PAD, s.y + PAD, idx));
        }
      }
      var yTop := if |shelves| == 0 then 0 else shelves[|shelves| - 1].y + shelves[|shelves| - 1].h;
      if yTop + padH > height {
        return None;
      }
      spot := Some(Spot(PAD, yTop + PAD, |shelves|));
      shelves := shelves + [Shelf(yTop, padH, padW, [])];
    }

    /** The newest stamp on a shelf, 0 when it holds nothing cached. */
    method YoungestOf(entries: seq<GlyphKey>) returns (youngest: U64)
      ensures youngest == Youngest(entries, cache)
    {
      youngest := 0;
      for i := 0 to |entries|
        invariant youngest == Youngest(entries[..i], cache)
      {
        assert entries[..i + 1][..i] == entries[..i];
        if entries[i] in cache && cache[entries[i]].lastUsed > youngest {
          youngest := cache[entries[i]].lastUsed;
        }
      }
      assert entries[..|entries|] == entries;
    }

    /** The eviction scan: the first tall-enough shelf whose newest stamp is oldest. */
    method FindStalest(neededH: nat) returns (found: Option<nat>)
      ensures found == Stalest(shelves, cache, neededH, |shelves|)
    {
      var best: Option<(nat, U64)> := None;
      for idx := 0 to |shelves|
        invariant best.Some? <==> Stalest(shelves, cache, neededH, idx).Some?
        invariant best.Some? ==> best.value.0 == Stalest(shelves, cache, neededH, idx).value
                                 && best.value.1 == Youngest(shelves[best.value.0].entries, cache)
      {
        if shelves[idx].h >= neededH {
          var youngest := YoungestOf(shelves[idx].entries);
          if best.None? || youngest < best.value.1 {
            best := Some((idx, youngest));
          }
        }
      }
      return if best.None? then None else Some(best.value.0);
    }

    method DropKeys(keys: seq<GlyphKey>)
      modifies this`cache, this`ink, this`access
      ensures cache == old(cache) - KeySet(keys)
      ensures ink == old(ink) - KeySet(keys) && access == old(access) - KeySet(keys)
    {
      ink, access := ink - KeySet(keys), access - KeySet(keys);
      for i := 0 to |keys|
        modifies this`cache
        invariant cache == old(cache) - KeySet(keys[..i])
      {
        assert KeySet(keys[..i + 1]) == KeySet(keys[..i]) + {keys[i]};
        cache := cache - {keys[i]};
      }
      assert keys[..|keys|] == keys;
    }

    method EvictLruShelf(neededW: nat, neededH: nat) returns (found: bool)
      modifies this`shelves, this`cache, this`counters, this`ink, this`access
      ensures (found, View()) == AtlasModel.EvictLruShelf(old(View()), neededW, neededH)
    {
      if neededW > width {
        return false;
      }
      counters := counters.(evictions := SaturatingInc(counters.evictions, U64_SPAN - 1));
      var best := FindStalest(neededH);
      if best.None? {
        return false;
      }
      var idx := best.value;
      DropKeys(shelves[idx].entries);
      shelves := shelves[idx := shelves[idx].(xUsed := 0, entries := [])];
      counters := counters.(evicted := counters.evicted + 1);
      found := true;
    }

    method Rebuild()
      modifies this`shelves, this`cache, this`counters, this`ink, this`access
      ensures View() == AtlasModel.Rebuild(old(View())) && |shelves| == 0 && |cache| == 0
      ensures counters == old(counters).(rebuilds := old(counters.rebuilds) + 1)
    {
      shelves, cache := [], map[];
      counters := counters.(rebuilds := counters.rebuilds + 1);
      ink, access := map[], map[];
    }

    method DropAllGlyphs()
      requires Valid()
      modifies this`shelves, this`cache, this`counters, this`ink, this`access
      ensures Valid() && View() == Step(old(View()), rasteriser, Op.DropAllGlyphs).1
      ensures |shelves| == 0 && |cache| == 0 && counters.rebuilds == old(counters.rebuilds) + 1
    {
      RebuildKeepsInv(View());
      Rebuild();
    }

    method PlaceOrEvict(w: nat, h: nat) returns (spot: Option<Spot>)
      modifies this`shelves, this`cache, this`counters, this`ink, this`access
      ensures (spot, View()) == AtlasModel.PlaceOrEvict(old(View()), w, h)
    {
      counters := counters.(rasterised := SaturatingInc(counters.rasterised, U32_MAX));
      spot := Place(w, h);
      if spot.Some? {
        return;
      }
      var evicted := EvictLruShelf(w + 2 * PAD, h + 2 * PAD);
      if evicted {
        spot := Place(w, h);
        if spot.Some? {
          return;
        }
      }
      Rebuild();
      spot := Place(w, h);
    }

    /** Hands the bytes to the sink; the sink may assume the rectangle is on the atlas. */
    method Upload(bytes: seq<Byte>, w: nat, h: nat, x: nat, y: nat)
      requires x + w <= width && y + h <= height && |bytes| == w * h * bpp
      modifies this`texture
      ensures texture == if bytes == [] then old(texture) else Blit(old(texture), bytes, w, h, bpp, x, y)
    {
      if |bytes| == 0 {
        return;
      }
      texture := Blit(texture, bytes, w, h, bpp, x, y);
    }

    method RecordAt(key: GlyphKey, raster: Raster, s: Spot) returns (entry: Entry)
      requires s.shelf < |shelves| && Solid(raster, bpp)
      requires s.x + raster.w <= width && s.y + raster.h <= height
      modifies this`texture, this`cache, this`shelves, this`ink, this`access
      ensures View() == Record(old(View()), key, raster, s) && entry == NewEntry(raster, s, frame)
    {
      Upload(raster.bytes, raster.w, raster.h, s.x, s.y);
      entry := NewEntry(raster, s, frame);
      cache := cache[key := entry];
      shelves := shelves[s.shelf := shelves[s.shelf].(entries := shelves[s.shelf].entries + [key])];
      ink, access := ink[key := raster], access[key := frame];
    }

    method CommitRaster(key: GlyphKey, raster: Raster) returns (entry: Option<Entry>)
      requires Valid() && key !in cache && Solid(raster, bpp)
      modifies this
      ensures Valid() && (entry, View()) == AtlasModel.CommitRaster(old(View()), key, raster)
      ensures entry.Some? ==> key in ink && ink[key] == raster
    {
      CommitKeepsInv(View(), key, raster);
      PlaceOrEvictKeepsInv(View(), raster.w, raster.h);
      var spot := PlaceOrEvict(raster.w, raster.h);
      if spot.None? {
        return None;
      }
      var s := spot.value;
      FreeSpotFits16(View(), s, raster);
      var e := RecordAt(key, raster, s);
      entry := Some(e);
    }

    /** A cache hit: rewrite the stamp only when it has decayed. */
    method Hit(key: GlyphKey) returns (entry: Entry)
      requires key in cache
      modifies this`cache, this`access
      ensures View() == Touch(old(View()), key) && entry == cache[key]
      ensures var age := (frame - old(cache[key].lastUsed)) % 0x1_0000_0000_0000_0000;
              cache == if age < 8 then old(cache) else old(cache)[key := old(cache[key]).(lastUsed := frame)]
      ensures old(cache[key]) == entry.(lastUsed := old(cache[key].lastUsed))
    {
      entry := cache[key];
      if WrappingSub(frame, entry.lastUsed) >= LAST_USED_RESOLUTION {
        entry := entry.(lastUsed := frame);
      }
      cache := cache[key := entry];
      access := access[key := frame];
    }

    method GetOrRasterize(key: GlyphKey, metrics: SlotMetrics, nCells: nat) returns (entry: Option<Entry>)
      requires Valid() && OpOk(rasteriser, bpp, GetInCell(key, metrics, nCells))
      modifies this
      ensures Valid() && (entry, View()) == Step(old(View()), rasteriser, GetInCell(key, metrics, nCells))
      ensures entry.Some? ==> Shows(texture, bpp, entry.value, ink[key])
      ensures key !in old(cache) && entry.Some? ==>
                var out := rasteriser.inCell(key.font, key.glyph, metrics, nCells);
                out.Some? && key in ink && TakenFor(ink[key], out.value, if nCells == 0 then 1 else nCells)
      ensures key in old(cache) ==>
                entry.Some? && old(cache[key]) == entry.value.(lastUsed := old(cache[key].lastUsed)) && ink == old(ink)
    {
      FetchKeepsInv(View(), key, FreshInCell(rasteriser, key, metrics, nCells));
      if key in cache {
        var hit := Hit(key);
        return Some(hit);
      }
      var out := rasteriser.inCell(key.font, key.glyph, metrics, nCells);
      if out.None? {
        return None;
      }
      entry := CommitRaster(key, out.value.(nCells := if nCells < 1 then 1 else nCells));
    }

    method GetOrRasterizeNatural(key: GlyphKey) returns (entry: Option<Entry>)
      requires Valid() && OpOk(rasteriser, bpp, GetNatural(key))
      modifies this
      ensures Valid() && (entry, View()) == Step(old(View()), rasteriser, GetNatural(key))
      ensures entry.Some? ==> Shows(texture, bpp, entry.value, ink[key])
      ensures key !in old(cache) && entry.Some? ==>
                var out := rasteriser.natural(key.font, key.glyph, key.subpx);
                out.Some? && key in ink && TakenFor(ink[key], out.value, 1)
      ensures key in old(cache) ==>
                entry.Some? && old(cache[key]) == entry.value.(lastUsed := old(cache[key].lastUsed)) && ink == old(ink)
    {
      FetchKeepsInv(View(), key, FreshNatural(rasteriser, key));
      if key in cache {
        var hit := Hit(key);
        return Some(hit);
      }
      var out := rasteriser.natural(key.font, key.glyph, key.subpx);
      if out.None? {
        return None;
      }
      entry := CommitRaster(key, out.value.(nCells := 1));
    }

    method MakePainting(painted: seq<Byte>, w: nat, h: nat, baselineFromTop: nat, nCells: nat) returns (made: Raster)
      ensures made == FreshCustom(painted, w, h, baselineFromTop, nCells)
      ensures IsPainting(made, painted, w, h, baselineFromTop, nCells)
      ensures |painted| == w * h * bpp ==> Solid(made, bpp)
    {
      made := Raster(painted, w, h, nCells, 0, AsI16(baselineFromTop));
      BaselineIsSigned(baselineFromTop);
    }

    /** `painted` is the zeroed `w * h * bpp` buffer after the caller's closure has drawn into it. */
    method GetOrInsertCustomRaster(key: GlyphKey, w: nat, h: nat, baselineFromTop: nat, nCells: nat, painted: seq<Byte>)
      returns (entry: Option<Entry>)
      requires Valid() && OpOk(rasteriser, bpp, GetCustom(key, w, h, baselineFromTop, nCells, painted))
      modifies this
      ensures Valid()
      ensures (entry, View()) == Step(old(View()), rasteriser, GetCustom(key, w, h, baselineFromTop, nCells, painted))
      ensures entry.Some? ==> Shows(texture, bpp, entry.value, ink[key])
      ensures key !in old(cache) && entry.Some? ==>
                key in ink && IsPainting(ink[key], painted, w, h, baselineFromTop, nCells)
      ensures key in old(cache) ==>
                entry.Some? && old(cache[key]) == entry.value.(lastUsed := old(cache[key].lastUsed)) && ink == old(ink)
    {
      var made := MakePainting(painted, w, h, baselineFromTop, nCells);
      FetchKeepsInv(View(), key, Some(made));
      if key in cache {
        var hit := Hit(key);
        return Some(hit);
      }
      entry := CommitRaster(key, made);
    }
  }
}

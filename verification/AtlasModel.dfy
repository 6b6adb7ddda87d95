/** The glyph atlas on values: what each operation of src/glyph_atlas.rs does. */
module AtlasModel {
  import opened Wrappers

  /** 1-px padding on every side of every glyph. */
  const PAD := 1
  /** A hit rewrites the stamp only when it is at least this many frames old. */
  const LAST_USED_RESOLUTION := 8

  const U16_SPAN := 0x1_0000
  const U32_MAX := 0xFFFF_FFFF
  const U64_SPAN := 0x1_0000_0000_0000_0000

  type U64 = n: int | 0 <= n < U64_SPAN
  type Pixel = seq<Byte>
  type Texture = (int, int) -> Pixel

  datatype GlyphKey = GlyphKey(font: nat, glyph: nat, sizeQ: nat, subpx: nat, flags: nat)

  datatype Entry = Entry(u0: nat, v0: nat, u1: nat, v1: nat, pxW: nat, pxH: nat,
                         nCells: nat, bearingX: int, bearingY: int, lastUsed: U64)

  /** One row of the packer; `entries` lists the keys placed on it, in placement order. */
  datatype Shelf = Shelf(y: nat, h: nat, xUsed: nat, entries: seq<GlyphKey>)

  datatype Raster = Raster(bytes: seq<Byte>, w: nat, h: nat, nCells: nat, bearingX: int, bearingY: int)

  datatype SlotMetrics = SlotMetrics(cellW: nat, cellH: nat, baselineFromTop: nat)

  /** The two calls of the rasteriser trait; foreign code, so uninterpreted functions. */
  datatype Rasteriser = Rasteriser(
    natural: (nat, nat, nat) -> Option<Raster>,
    inCell: (nat, nat, SlotMetrics, nat) -> Option<Raster>)

  datatype Counters = Counters(rasterised: nat, rebuilds: nat, evictions: nat, evicted: nat)

  /**
   The last three components exist only for the proofs: `texture` (what the sink holds), `ink` (the
   raster committed for each cached key) and `access` (the frame of the true last access of each
   cached key, which the decayed `lastUsed` stamp only approximates).
   */
  datatype Atlas = Atlas(
    width: nat, height: nat, bpp: nat,
    shelves: seq<Shelf>, cache: map<GlyphKey, Entry>, frame: U64, counters: Counters,
    texture: Texture, ink: map<GlyphKey, Raster>, access: map<GlyphKey, U64>)

  datatype Spot = Spot(x: nat, y: nat, shelf: nat)

  /* ---------------------------------------------------------------- pixels */

  /** Pixel `(i, j)` of `bytes` read as rows of `w` pixels. */
  function PixelOf(bytes: seq<Byte>, w: nat, bpp: nat, i: int, j: int): Pixel {
    var at := (j * w + i) * bpp;
    if 0 <= at && at + bpp <= |bytes| then bytes[at..at + bpp] else []
  }

  /** The sink's `upload`: rows of `bytes` with their top-left at `(x, y)`. */
  function Blit(t: Texture, bytes: seq<Byte>, w: nat, h: nat, bpp: nat, x: nat, y: nat): Texture {
    (px, py) => if x <= px < x + w && y <= py < y + h
                then PixelOf(bytes, w, bpp, px - x, py - y)
                else t(px, py)
  }

  /** A raster whose buffer has one pixel per position, as the rasteriser trait demands. */
  predicate Solid(r: Raster, bpp: nat) {
    |r.bytes| == r.w * r.h * bpp
  }

  /* ---------------------------------------------------------------- packing */

  /** Height fits within 25 % waste and the row still has room. */
  predicate Accepts(s: Shelf, padW: nat, padH: nat, width: nat) {
    s.h >= padH && 4 * (s.h - padH) <= s.h && s.xUsed + padW <= width
  }

  /** The first shelf from `i` on that accepts the padded size; `|shelves|` when none does. */
  function FirstFit(shelves: seq<Shelf>, padW: nat, padH: nat, width: nat, i: nat): (r: nat)
    requires i <= |shelves|
    ensures i <= r <= |shelves|
    ensures r < |shelves| ==> Accepts(shelves[r], padW, padH, width)
    ensures forall j :: i <= j < r ==> !Accepts(shelves[j], padW, padH, width)
    decreases |shelves| - i
  {
    if i == |shelves| || Accepts(shelves[i], padW, padH, width) then i
    else FirstFit(shelves, padW, padH, width, i + 1)
  }

  function Bottom(shelves: seq<Shelf>): nat {
    if shelves == [] then 0 else shelves[|shelves| - 1].y + shelves[|shelves| - 1].h
  }

  function Place(shelves: seq<Shelf>, width: nat, height: nat, w: nat, h: nat)
    : (r: (Option<Spot>, seq<Shelf>))
    ensures r.0.Some? ==> r.0.value.shelf < |r.1|
  {
    var padW, padH := w + 2 * PAD, h + 2 * PAD;
    if padW > width then (None, shelves)
    else
      var i := FirstFit(shelves, padW, padH, width, 0);
      if i < |shelves| then
        var s := shelves[i];
        (Some(Spot(s.xUsed + PAD, s.y + PAD, i)), shelves[i := s.(xUsed := s.xUsed + padW)])
      else
        var y := Bottom(shelves);
        if y + padH > height then (None, shelves)
        else (Some(Spot(PAD, y + PAD, |shelves|)), shelves + [Shelf(y, padH, padW, [])])
  }

  /* ---------------------------------------------------------------- eviction */

  /** Largest stamp among the cached keys of a shelf, 0 when there is none. */
  function Youngest(entries: seq<GlyphKey>, cache: map<GlyphKey, Entry>): U64 {
    if entries == [] then 0
    else
      var k, rest := entries[|entries| - 1], Youngest(entries[..|entries| - 1], cache);
      if k in cache && cache[k].lastUsed > rest then cache[k].lastUsed else rest
  }

  /** Among the first `n` shelves at least `neededH` high: the first whose youngest stamp is smallest. */
  function Stalest(shelves: seq<Shelf>, cache: map<GlyphKey, Entry>, neededH: nat, n: nat): (r: Option<nat>)
    requires n <= |shelves|
    ensures r.Some? ==> r.value < n && shelves[r.value].h >= neededH
    ensures r.None? ==> forall j :: 0 <= j < n ==> shelves[j].h < neededH
  {
    if n == 0 then None
    else
      var best := Stalest(shelves, cache, neededH, n - 1);
      var s := shelves[n - 1];
      if s.h < neededH then best
      else if best.None? || Youngest(s.entries, cache) < Youngest(shelves[best.value].entries, cache)
      then Some(n - 1)
      else best
  }

  function KeySet(entries: seq<GlyphKey>): set<GlyphKey> {
    set k | k in entries
  }

  function Recycle(a: Atlas, i: nat): Atlas
    requires i < |a.shelves|
  {
    var gone := KeySet(a.shelves[i].entries);
    a.(shelves := a.shelves[i := a.shelves[i].(xUsed := 0, entries := [])],
       cache := a.cache - gone, ink := a.ink - gone, access := a.access - gone,
       counters := a.counters.(evicted := a.counters.evicted + 1))
  }

  function SaturatingInc(n: nat, max: nat): nat {
    if n < max then n + 1 else n
  }

  function EvictLruShelf(a: Atlas, neededW: nat, neededH: nat): (bool, Atlas) {
    if neededW > a.width then (false, a)
    else
      var counted := a.(counters := a.counters.(evictions := SaturatingInc(a.counters.evictions, U64_SPAN - 1)));
      match Stalest(a.shelves, a.cache, neededH, |a.shelves|)
      case None => (false, counted)
      case Some(i) => (true, Recycle(counted, i))
  }

  function Rebuild(a: Atlas): Atlas {
    a.(shelves := [], cache := map[], ink := map[], access := map[],
       counters := a.counters.(rebuilds := a.counters.rebuilds + 1))
  }

  /** `place` with its shelves put back into the atlas. */
  function PlaceIn(a: Atlas, w: nat, h: nat): (r: (Option<Spot>, Atlas))
    ensures r.0.Some? ==> r.0.value.shelf < |r.1.shelves|
  {
    var (spot, shelves) := Place(a.shelves, a.width, a.height, w, h);
    (spot, a.(shelves := shelves))
  }

  function PlaceOrEvict(a: Atlas, w: nat, h: nat): (r: (Option<Spot>, Atlas))
    ensures r.0.Some? ==> r.0.value.shelf < |r.1.shelves|
  {
    var a0 := a.(counters := a.counters.(rasterised := SaturatingInc(a.counters.rasterised, U32_MAX)));
    var first := PlaceIn(a0, w, h);
    if first.0.Some? then first
    else
      var (recycled, a1) := EvictLruShelf(a0, w + 2 * PAD, h + 2 * PAD);
      if recycled && PlaceIn(a1, w, h).0.Some? then PlaceIn(a1, w, h)
      else PlaceIn(Rebuild(a1), w, h)
  }

  /* ---------------------------------------------------------------- lookup */

  /** `as u16`. */
  function AsU16(n: nat): nat {
    n % U16_SPAN
  }

  /** `as i16` on an unsigned value. */
  function AsI16(n: nat): int {
    (n + 0x8000) % U16_SPAN - 0x8000
  }

  function NewEntry(r: Raster, spot: Spot, frame: U64): Entry {
    Entry(AsU16(spot.x), AsU16(spot.y), AsU16(spot.x + r.w), AsU16(spot.y + r.h), AsU16(r.w), AsU16(r.h),
          r.nCells, r.bearingX, r.bearingY, frame)
  }

  function Record(a: Atlas, key: GlyphKey, r: Raster, spot: Spot): Atlas
    requires spot.shelf < |a.shelves|
  {
    var s := a.shelves[spot.shelf];
    a.(texture := if r.bytes == [] then a.texture
                  else Blit(a.texture, r.bytes, r.w, r.h, a.bpp, spot.x, spot.y),
       cache := a.cache[key := NewEntry(r, spot, a.frame)],
       shelves := a.shelves[spot.shelf := s.(entries := s.entries + [key])],
       ink := a.ink[key := r], access := a.access[key := a.frame])
  }

  function CommitRaster(a: Atlas, key: GlyphKey, r: Raster): (Option<Entry>, Atlas) {
    var (spot, placed) := PlaceOrEvict(a, r.w, r.h);
    match spot
    case None => (None, placed)
    case Some(s) => (Some(NewEntry(r, s, placed.frame)), Record(placed, key, r, s))
  }

  /** `u64::wrapping_sub`. */
  function WrappingSub(a: U64, b: U64): U64 {
    (a - b) % U64_SPAN
  }

  /** A hit: the decayed store, and the true access time. */
  function Touch(a: Atlas, key: GlyphKey): Atlas
    requires key in a.cache
  {
    var e := a.cache[key];
    var e' := if WrappingSub(a.frame, e.lastUsed) >= LAST_USED_RESOLUTION then e.(lastUsed := a.frame) else e;
    a.(cache := a.cache[key := e'], access := a.access[key := a.frame])
  }

  /** All three lookups: a hit touches, a miss commits the fresh raster when there is one. */
  function Fetch(a: Atlas, key: GlyphKey, made: Option<Raster>): (Option<Entry>, Atlas) {
    if key in a.cache then
      var touched := Touch(a, key);
      (Some(touched.cache[key]), touched)
    else
      match made
      case None => (None, a)
      case Some(r) => CommitRaster(a, key, r)
  }

  /** The raster each lookup path makes on a miss. */
  function FreshInCell(r: Rasteriser, key: GlyphKey, metrics: SlotMetrics, nCells: nat): Option<Raster> {
    match r.inCell(key.font, key.glyph, metrics, nCells)
    case None => None
    case Some(out) => Some(out.(nCells := if nCells < 1 then 1 else nCells))
  }

  function FreshNatural(r: Rasteriser, key: GlyphKey): Option<Raster> {
    match r.natural(key.font, key.glyph, key.subpx)
    case None => None
    case Some(out) => Some(out.(nCells := 1))
  }

  function FreshCustom(painted: seq<Byte>, w: nat, h: nat, baselineFromTop: nat, nCells: nat): Raster {
    Raster(painted, w, h, nCells, 0, AsI16(baselineFromTop))
  }

  /* ---------------------------------------------------------------- runs */

  datatype Op =
    | BeginFrame(id: U64)
    | GetInCell(key: GlyphKey, metrics: SlotMetrics, nCells: nat)
    | GetNatural(key: GlyphKey)
    | GetCustom(key: GlyphKey, w: nat, h: nat, baselineFromTop: nat, nCells: nat, painted: seq<Byte>)
    | DropAllGlyphs
    | TakeRasterised

  predicate IsGet(op: Op) {
    op.GetInCell? || op.GetNatural? || op.GetCustom?
  }

  function FreshOf(r: Rasteriser, op: Op): Option<Raster>
    requires IsGet(op)
  {
    match op
    case GetInCell(key, metrics, n) => FreshInCell(r, key, metrics, n)
    case GetNatural(key) => FreshNatural(r, key)
    case GetCustom(_, w, h, base, n, painted) => Some(FreshCustom(painted, w, h, base, n))
  }

  function Step(a: Atlas, r: Rasteriser, op: Op): (Option<Entry>, Atlas) {
    match op
    case BeginFrame(id) => (None, a.(frame := id))
    case DropAllGlyphs => (None, Rebuild(a))
    case TakeRasterised => (None, a.(counters := a.counters.(rasterised := 0)))
    case _ => Fetch(a, op.key, FreshOf(r, op))
  }

  function Run(a: Atlas, r: Rasteriser, ops: seq<Op>): Atlas {
    if ops == [] then a else Step(Run(a, r, ops[..|ops| - 1]), r, ops[|ops| - 1]).1
  }

  function Empty(width: nat, height: nat, bpp: nat, texture: Texture): Atlas {
    Atlas(width, height, bpp, [], map[], 0, Counters(0, 0, 0, 0), texture, map[], map[])
  }
}

/** The stamp-based LRU of shaped lines, src/font_shape.rs. */
module ShapeCache {
  import opened Recency

  datatype ShapeOptions = ShapeOptions(kerning: bool, liga: bool, calt: bool, contextual: bool)

  datatype ShapedGlyph = ShapedGlyph(fontId: nat, glyphId: nat, penX: int, subpx: nat)

  datatype ShapeKey = ShapeKey(text: string, sizeQ: nat, fontId: nat, optsBits: bv8)

  datatype ShapeEntry = ShapeEntry(glyphs: seq<ShapedGlyph>, lastUsed: nat)

  /** The shaper is foreign code: a function of the text, size, font and options. */
  type Shaper = (string, nat, nat, ShapeOptions) -> seq<ShapedGlyph>

  function OptsToBits(o: ShapeOptions): bv8 {
    (if o.kerning then 1 else 0) | ((if o.liga then 1 else 0) << 1)
    | ((if o.calt then 1 else 0) << 2) | ((if o.contextual then 1 else 0) << 3)
  }

  function BitsToOpts(bits: bv8): ShapeOptions {
    ShapeOptions(bits & 1 != 0, bits & 2 != 0, bits & 4 != 0, bits & 8 != 0)
  }

  /** The key keeps every option: the shaper gets back what the caller asked for. */
  lemma {:induction false} OptsSurviveKey(o: ShapeOptions)
    ensures BitsToOpts(OptsToBits(o)) == o
  {
  }

  function KeyOf(text: string, fontId: nat, sizeQ: nat, opts: ShapeOptions): ShapeKey {
    ShapeKey(text, sizeQ, fontId, OptsToBits(opts))
  }

  function Fresh(shaper: Shaper, k: ShapeKey): seq<ShapedGlyph> {
    shaper(k.text, k.sizeQ, k.fontId, BitsToOpts(k.optsBits))
  }

  /** Eviction runs before the insert and only on a non-empty cache, so a cap of 0 still leaves room for one entry. */
  function Room(cap: nat): (n: nat)
    ensures n > 0
  {
    if cap == 0 then 1 else cap
  }

  type Entries = map<ShapeKey, ShapeEntry>

  /** Stamps fall along the list. */
  ghost predicate Ordered(entries: Entries, kept: seq<ShapeKey>) {
    && (forall i :: 0 <= i < |kept| ==> kept[i] in entries)
    && forall i, j :: 0 <= i < j < |kept| ==> entries[kept[i]].lastUsed > entries[kept[j]].lastUsed
  }

  /** The entries are the kept keys, each freshly shaped, stamped in the order of the list. */
  ghost predicate Holds(entries: Entries, kept: seq<ShapeKey>, tick: nat, shaper: Shaper) {
    && NoRepeats(kept) && entries.Keys == Keys(kept) && Ordered(entries, kept)
    && forall k :: k in entries ==> entries[k].glyphs == Fresh(shaper, k) && entries[k].lastUsed <= tick
  }

  lemma {:induction false} ListSize(kept: seq<ShapeKey>)
    requires NoRepeats(kept)
    ensures |Keys(kept)| == |kept|
  {
    if kept != [] {
      var init, last := kept[..|kept| - 1], kept[|kept| - 1];
      ListSize(init);
      assert kept == init + [last];
      assert Keys(kept) == Keys(init) + {last};
      assert last !in init;
    }
  }

  /** How many entries a cache of `cap` holds, and that `cap` bounds them unless it is 0 and something was asked for. */
  lemma {:induction false} WithinCapIff(entries: Entries, requests: seq<ShapeKey>, cap: nat, tick: nat, shaper: Shaper)
    requires Holds(entries, Kept(requests, Room(cap)), tick, shaper)
    ensures |entries| == if |Keys(requests)| < Room(cap) then |Keys(requests)| else Room(cap)
    ensures |entries| <= cap <==> cap > 0 || |requests| == 0
  {
    var kept, all := Kept(requests, Room(cap)), Latest(requests);
    ListSize(kept);
    assert |entries| == |entries.Keys|;
    LatestListsRequested(requests);
    ListSize(all);
    assert Keys(all) == Keys(requests);
    if |requests| > 0 { assert requests[0] in Keys(requests); }
  }

  lemma {:induction false} HeldIffRecent(entries: Entries, requests: seq<ShapeKey>, cap: nat)
    requires entries.Keys == Keys(Kept(requests, Room(cap)))
    ensures forall k :: k in entries <==> k in requests && |Since(requests, k)| < if cap == 0 then 1 else cap
  {
    forall k ensures k in entries <==> k in requests && |Since(requests, k)| < if cap == 0 then 1 else cap {
      KeptIffRecent(requests, Room(cap), k);
      assert k in entries <==> k in Keys(Kept(requests, Room(cap)));
    }
  }

  /** With stamps in list order, the entry with the oldest stamp is the last of the list. */
  lemma {:induction false} OldestIsLast(entries: Entries, kept: seq<ShapeKey>, tick: nat, shaper: Shaper,
                                        oldest: ShapeKey)
    requires Holds(entries, kept, tick, shaper) && oldest in entries
    requires forall k :: k in entries ==> entries[oldest].lastUsed <= entries[k].lastUsed
    ensures kept != [] && kept[|kept| - 1] == oldest
  {
    assert oldest in kept;
    var i :| 0 <= i < |kept| && kept[i] == oldest;
    assert kept[|kept| - 1] in entries;
  }

  lemma {:induction false} DroppingLast(kept: seq<ShapeKey>)
    requires NoRepeats(kept) && kept != []
    ensures var init, last := kept[..|kept| - 1], kept[|kept| - 1];
            NoRepeats(init) && Keys(init) == Keys(kept) - {last}
  {
    var init, last := kept[..|kept| - 1], kept[|kept| - 1];
    assert kept == init + [last];
    assert last !in init;
    assert forall k :: k in kept <==> k in init || k == last;
  }

  lemma {:induction false} DroppingLastHolds(entries: Entries, kept: seq<ShapeKey>, tick: nat, shaper: Shaper)
    requires Holds(entries, kept, tick, shaper) && kept != []
    ensures Holds(entries - {kept[|kept| - 1]}, kept[..|kept| - 1], tick, shaper)
  {
    var init, rest := kept[..|kept| - 1], entries - {kept[|kept| - 1]};
    DroppingLast(kept);
    assert rest.Keys == Keys(init);
    forall i | 0 <= i < |init| ensures init[i] in rest {
      assert init[i] in init && init[i] in Keys(init);
    }
  }

  lemma {:induction false} FrontOrdered(entries: Entries, kept: seq<ShapeKey>, k: ShapeKey, e: ShapeEntry, tick: nat)
    requires Ordered(entries, kept) && k !in kept && e.lastUsed == tick + 1
    requires forall x :: x in kept ==> x in entries && entries[x].lastUsed <= tick
    ensures Ordered(entries[k := e], [k] + kept)
  {
    var all, after := [k] + kept, entries[k := e];
    forall i | 0 <= i < |all| ensures all[i] in after && (i > 0 ==> after[all[i]] == entries[kept[i - 1]]) {
      if i > 0 { assert all[i] == kept[i - 1] && kept[i - 1] in kept; }
    }
  }

  /** A key not yet held goes to the front with the newest stamp. */
  lemma {:induction false} AddingHolds(entries: Entries, kept: seq<ShapeKey>, tick: nat, shaper: Shaper, k: ShapeKey)
    requires Holds(entries, kept, tick, shaper) && k !in entries
    ensures Holds(entries[k := ShapeEntry(Fresh(shaper, k), tick + 1)], [k] + kept, tick + 1, shaper)
  {
    assert k !in kept && forall x :: x in kept ==> x in entries;
    FrontOrdered(entries, kept, k, ShapeEntry(Fresh(shaper, k), tick + 1), tick);
    assert forall x :: x in [k] + kept <==> x == k || x in kept;
    assert entries[k := ShapeEntry(Fresh(shaper, k), tick + 1)].Keys == Keys([k] + kept);
    assert forall i :: 0 <= i < |kept| ==> kept[i] in kept;
  }

  lemma {:induction false} WithoutKeepsOrder(entries: Entries, kept: seq<ShapeKey>, k: ShapeKey)
    requires Ordered(entries, kept)
    ensures Ordered(entries, Without(kept, k))
    ensures forall x :: x in Without(kept, k) ==> x in kept
  {
    if kept != [] {
      WithoutKeepsOrder(entries, kept[1..], k);
      var rest := Without(kept[1..], k);
      forall j | 0 <= j < |rest| ensures entries[kept[0]].lastUsed > entries[rest[j]].lastUsed {
        assert rest[j] in rest;
        var m :| 0 <= m < |kept[1..]| && kept[1..][m] == rest[j];
        assert kept[m + 1] == rest[j];
      }
      assert kept == [kept[0]] + kept[1..];
    }
  }

  lemma {:induction false} RestampOrder(entries: Entries, kept: seq<ShapeKey>, tick: nat, k: ShapeKey)
    requires NoRepeats(kept) && Ordered(entries, kept) && k in entries
    requires forall x :: x in entries ==> entries[x].lastUsed <= tick
    ensures Ordered(entries[k := entries[k].(lastUsed := tick + 1)], [k] + Without(kept, k))
  {
    var rest := Without(kept, k);
    WithoutDrops(kept, k);
    WithoutKeepsOrder(entries, kept, k);
    forall x | x in rest ensures x in entries {
      var i :| 0 <= i < |rest| && rest[i] == x;
    }
    FrontOrdered(entries, rest, k, entries[k].(lastUsed := tick + 1), tick);
  }

  lemma {:induction false} FrontKeys(kept: seq<ShapeKey>, k: ShapeKey)
    requires NoRepeats(kept) && k in kept
    ensures NoRepeats([k] + Without(kept, k)) && Keys([k] + Without(kept, k)) == Keys(kept)
  {
    var rest := Without(kept, k);
    WithoutDrops(kept, k);
    assert forall x :: x in [k] + rest <==> x == k || x in rest;
    assert forall i :: 0 <= i < |rest| ==> rest[i] in rest;
  }

  /** A key asked for again goes to the front with the newest stamp. */
  lemma {:induction false} RestampHolds(entries: Entries, kept: seq<ShapeKey>, tick: nat, shaper: Shaper, k: ShapeKey)
    requires Holds(entries, kept, tick, shaper) && k in entries
    ensures Holds(entries[k := entries[k].(lastUsed := tick + 1)], [k] + Without(kept, k), tick + 1, shaper)
  {
    assert k in kept;
    RestampOrder(entries, kept, tick, k);
    FrontKeys(kept, k);
    assert entries[k := entries[k].(lastUsed := tick + 1)].Keys == entries.Keys;
  }

  class ShapeCache {
    const cap: nat
    const shaper: Shaper
    var entries: map<ShapeKey, ShapeEntry>
    var tick: nat
    var hits: nat
    var misses: nat

    /** Every key asked for so far. */
    ghost var requests: seq<ShapeKey>

    ghost predicate Valid()
      reads this
    {
      Holds(entries, Kept(requests, Room(cap)), tick, shaper) && tick == hits + misses == |requests|
    }

    constructor (cap: nat, shaper: Shaper)
      ensures Valid() && requests == [] && this.cap == cap && this.shaper == shaper
    {
      this.cap, this.shaper := cap, shaper;
      entries, tick, hits, misses := map[], 0, 0, 0;
      requests := [];
    }

    /** `min_by_key` over the map, in whatever order it iterates. */
    method Oldest() returns (oldest: ShapeKey)
      requires entries != map[]
      ensures oldest in entries && forall k :: k in entries ==> entries[oldest].lastUsed <= entries[k].lastUsed
    {
      var left := entries.Keys;
      assert left != {} by { var k :| k in entries; }
      oldest :| oldest in left;
      left := left - {oldest};
      while left != {}
        invariant left <= entries.Keys && oldest in entries
        invariant forall k :: k in entries && k !in left ==> entries[oldest].lastUsed <= entries[k].lastUsed
      {
        var k :| k in left;
        left := left - {k};
        if entries[k].lastUsed < entries[oldest].lastUsed {
          oldest := k;
        }
      }
    }

    /** A hit: newest stamp. */
    method Restamp(key: ShapeKey, ghost kept: seq<ShapeKey>) returns (glyphs: seq<ShapedGlyph>)
      requires key in entries && tick > 0 && Holds(entries, kept, tick - 1, shaper)
      modifies this`entries
      ensures Holds(entries, [key] + Without(kept, key), tick, shaper) && glyphs == Fresh(shaper, key)
    {
      var entry := entries[key].(lastUsed := tick);
      RestampHolds(entries, kept, tick - 1, shaper, key);
      assert entry.glyphs == Fresh(shaper, key);
      entries := entries[key := entry];
      glyphs := entry.glyphs;
    }

    /** Into a full cache: the oldest stamp goes. */
    method MakeRoom(ghost kept: seq<ShapeKey>) returns (ghost left: seq<ShapeKey>)
      requires tick > 0 && Holds(entries, kept, tick - 1, shaper) && |kept| <= Room(cap)
      modifies this`entries
      ensures Holds(entries, left, tick - 1, shaper) && left == Prefix(kept, Room(cap) - 1)
      ensures forall k :: k in entries ==> k in old(entries)
    {
      left := kept;
      ListSize(kept);
      assert |entries| == |entries.Keys|;
      if |entries| >= cap && |entries| > 0 {
        var oldest := Oldest();
        OldestIsLast(entries, kept, tick - 1, shaper, oldest);
        DroppingLastHolds(entries, kept, tick - 1, shaper);
        entries := entries - {oldest};
        left := kept[..|kept| - 1];
      }
    }

    /** A miss: make room, then insert. */
    method InsertFresh(key: ShapeKey, glyphs: seq<ShapedGlyph>, ghost kept: seq<ShapeKey>)
      requires key !in entries && tick > 0 && Holds(entries, kept, tick - 1, shaper)
      requires glyphs == Fresh(shaper, key) && |kept| <= Room(cap)
      modifies this`entries
      ensures Holds(entries, [key] + Prefix(kept, Room(cap) - 1), tick, shaper)
    {
      ghost var left := MakeRoom(kept);
      AddingHolds(entries, left, tick - 1, shaper, key);
      entries := entries[key := ShapeEntry(glyphs, tick)];
    }

    /**
     The keys held afterwards are exactly the most recent distinct ones, as many as there is
     room for, and the glyphs returned are those a fresh shaping gives.
     */
    method ShapeWith(text: string, fontId: nat, sizeQ: nat, opts: ShapeOptions) returns (glyphs: seq<ShapedGlyph>)
      requires Valid()
      modifies this
      ensures Valid() && requests == old(requests) + [KeyOf(text, fontId, sizeQ, opts)]
      ensures entries.Keys == Keys(Kept(requests, Room(cap)))
      ensures forall k :: k in entries <==>
                k in requests && |Since(requests, k)| < if cap == 0 then 1 else cap
      ensures glyphs == shaper(text, sizeQ, fontId, opts)
      ensures hits == old(hits) + (if KeyOf(text, fontId, sizeQ, opts) in old(entries) then 1 else 0)
    {
      var key := KeyOf(text, fontId, sizeQ, opts);
      OptsSurviveKey(opts);
      KeptStep(requests, Room(cap), key);
      ghost var kept := Kept(requests, Room(cap));
      requests := requests + [key];
      tick := tick + 1;
      if key in entries {
        hits := hits + 1;
        glyphs := Restamp(key, kept);
      } else {
        misses := misses + 1;
        glyphs := shaper(text, sizeQ, fontId, BitsToOpts(key.optsBits));
        InsertFresh(key, glyphs, kept);
      }
      HeldIffRecent(entries, requests, cap);
    }
  }
}

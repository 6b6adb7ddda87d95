# marspot, verified

marspot is a terminal for macOS. This project models nine self-contained parts of it and proves what
they are for. A part that changes state in place is a class or a method with loops, proved against a
specification function; what the source promises is then proved about that function, over all inputs
or all runs.

| part | files | main result |
|---|---|---|
| glyph atlas | `AtlasModel`, `AtlasInvariant`, `AtlasRuns`, `AtlasEntries`, `GlyphAtlas` | in every reachable state each cached rectangle of the texture holds, pixel for pixel, the raster of its key, through placing, recycling and rebuilding; what was handed out stays good as long as no shelf is recycled and nothing rebuilt |
| link probe | `LinkCache`, `LinkProtocol`, `LinkLiveness`, `LinkStranded`, `LinkProbe` | in every interleaving of renderer and worker an outdated draw is owed a repaint, and any unanswered path in flight brings every pane's within a bounded number of worker steps, dropped asks included; an ask dropped at a queue full of refreshes can be stranded, and the exact condition is given |
| Unicode tables | `RangeTables`, `UnicodeTables` | compiling three range tables into one packed table keeps the three values of every code point; the result is the one canonical table |
| usage feed | `FeedScanner`, `FeedGrammar`, `FeedCrash`, `NaturalOrder`, `NaturalReading`, `FeedOrder`, `Calendar` | the hand-written scanners agree with the JSON grammar, and crash exactly on the texts named; the sort forgets the feed's order exactly when tied accounts are equal; the date formula counts days |
| PNG encoder | `RegisterBit`, `BitLists`, `CrcRegisters`, `Checksums`, `CrcPolynomial`, `PngEncoder`, `PngDecoder` | the CRC is the remainder of the polynomial division; a decoder written from the standards gives back the image, exactly when the format can carry it, and otherwise refuses the file |
| shape cache | `Recency`, `ShapeCache` | the stamps keep exactly the most recently requested distinct keys |
| window queue | `WindowMachine`, `WindowRuns`, `WindowExamples`, `WindowOps` | whatever AppKit calls back: no double borrow, every op once and in order, every window accounted for |
| pane names | `PaneNames`, `PaneNamesProofs`, `PaneResolution`, `PaneTargets` | the names handed out resolve to their panes exactly when no two directories differ in case only; they are distinct exactly when no directory is spelled like a number in use |
| paragraph rejoin | `Rejoin`, `RejoinLines`, `RejoinProofs`, `RejoinRules`, `RejoinBreaks`, `RejoinTwice`, `Rejoiner` | rejoining conserves text and shape, and is idempotent exactly on texts that strand no bare bullet |

`Wrappers` and `Text` hold what several parts share.

## How the model reads the source

* **Atlas.** The rasteriser is a function parameter. The class carries the texture and the true access
  times as ghost state; the texture is never cleared, so nothing is claimed about the one-pixel border.
  The waste rule is `4 * (H - h) <= H`.
* **Link probe.** Each lock region and the bump of the counter is one atomic step, so every interleaving
  is a step sequence. A pane reads the counter before it probes the paths it draws. The clock is a
  parameter of the steps that read it.
* **Usage feed.** JSON is a syntax tree with its own white space and spelling; `Render` writes it in
  front of any continuation. Strings are sequences of characters, byte texts are sequences of bytes.
* **PNG.** The decoder is written from section 5.3 of the PNG specification, section 2.2 of RFC 1950 and
  section 3.2.4 of RFC 1951, with filter type 0. Its chunk limit is a parameter: 2^31 - 1 as the standard
  says, or the full 32-bit range.
* **Window queue.** The machine has an explicit stack: handler, dev actions, drain loop, and AppKit calls
  that may raise events. Handlers only enqueue. The class runs the same steps on real fields, with AppKit
  and the handlers as a finite script, and each of its borrows has to be shown free.
* **Names and paragraphs.** `to_lowercase` and `is_uppercase` are parameters; each theorem says what it
  needs of them.

## Where the code does something its text does not say

* A raster too large for the atlas is refused only after the whole atlas has been emptied
  (`AtlasRuns.MissIsAnsweredIffItFits`).
* The lookup by key slices out of range on some feeds: for some key exactly when the feed ends just after a
  backslash inside a string (`FeedCrash.SomeLookupCrashesIffCut`), for a given key exactly when, besides, the
  part before that string does not hold the key (`FeedCrash.CrashesIffCutBeforeKey`). The feed `{"a\` is one
  (`FeedCrash.CutKeyCrashes`).
* An ask dropped at a full queue is said to be made again by the next frame; but a pane whose own content has
  not changed is only drawn again when the counter has moved. In `LinkStranded.DroppedAskIsStranded` the queue is full of refreshes that confirm
  what is known, and the dropped path stays unknown on screen with the worker idle.
  `LinkStranded.RepaintIsSureIff` says exactly when no run can come to that.
* Regions of a recycled shelf are said never to be sampled again, and a pane keeps its glyphs while the rebuild
  count stands still (src/frame_build/pane_cache.rs:158-172). Recycling leaves that count alone, and a kept
  rectangle can then show another glyph (`AtlasEntries.RecycledRectangleShowsAnother`);
  `AtlasEntries.QuietRunKeepsHandedOut` says what is enough.
* A shape cache of capacity 0 still holds one entry, so the capacity bounds the entries iff it is positive or
  nothing has been asked for (`ShapeCache.WithinCapIff`).
* `WINDOW_COUNT` is 0 while the boot window is open, until the first open or close
  (`WindowRuns.CountMirrorsIffChanged`); windows asked for while booting wait for the first event
  (`WindowRuns.BootOpsWait`).
* A Close popped while its window is still being shown is lost (`WindowExamples.EarlyCloseIsLost`);
  `WindowRuns.CloseTakesEffectIff` says exactly when a Close works.
* Directories `spg`, `spg`, `spg#1` give two panes one name (`PaneResolution.NumberLikeDirectoryCollides`);
  `PaneResolution.NamesDistinctIffNoCollision` says exactly when names are distinct.
* Directories `Spg` and `spg` give two different names, and `Spg` is still refused as ambiguous
  (`PaneResolution.CaseVariantIsAmbiguous`); `PaneResolution.ResolveInvertsAssignIff` says exactly when
  resolving undoes assigning, for base names that survive trimming, lower-casing and splitting.
* Two different accounts that tie by name and e-mail are shown in the feed's order, which changes between
  refreshes; `FeedOrder.SortForgetsFeedOrder` says that nothing else lets the feed's order through.
* Rejoining is not idempotent on `"a\n- "` (`RejoinTwice.LoneBulletIsStranded`);
  `RejoinTwice.RejoinTwiceIffStable` says exactly when it is.
* The branch that restores a final newline never runs (`RejoinProofs.NewlineIsKept`).

## Model

| member | source | states |
|---|---|---|
| `AtlasInvariant.LiveRectanglesAreApart` | src/glyph_atlas.rs:609-627 | In every state satisfying the invariant, the padded rectangles of two different live keys share no pixel, and each lies on the atlas |
| `AtlasInvariant.CacheMatchesShelves` | src/glyph_atlas.rs:351-363 | A key is cached iff some shelf lists it; no key is on two shelves or twice on one |
| `AtlasInvariant.BandsAreApart` | src/glyph_atlas.rs:794-829 | Shelves are stacked: an earlier shelf ends above a later one, and all end inside the atlas |
| `AtlasInvariant.PlaceKeepsPacked` | src/glyph_atlas.rs:794-829 | A successful `place` returns a spot clear of every live rectangle and keeps the packing; a failed one changes nothing |
| `AtlasInvariant.FreeSpotFits16` | src/glyph_atlas.rs:609-627 | The `as u16` casts of an entry lose nothing for a spot of an atlas with 16-bit dimensions |
| `AtlasInvariant.BlitMissesLive` | src/glyph_atlas.rs:831-836 | Writing a raster at a free spot changes no pixel of a live rectangle |
| `AtlasInvariant.PixelsDetermineBytes` | src/glyph_atlas.rs:831-836 | Showing a raster pixel by pixel leaves none of its bytes open |
| `AtlasInvariant.RecycleKeepsPacked` | src/glyph_atlas.rs:661-703 | Recycling a shelf keeps the packing for the keys that stay |
| `AtlasInvariant.RecordKeepsInv` | src/glyph_atlas.rs:609-627 | Storing a raster at a free spot keeps the whole invariant, the painted texture included |
| `AtlasInvariant.PlaceOrEvictKeepsInv` | src/glyph_atlas.rs:633-648 | Placing, recycling and rebuilding keep the invariant, and a spot they return is free |
| `AtlasRuns.FetchKeepsInv` | src/glyph_atlas.rs:535-570 | A lookup keeps the invariant; an entry it returns shows the raster just made on a miss and the held one on a hit |
| `AtlasRuns.MissIsAnsweredIffItFits` | src/glyph_atlas.rs:633-648 | A miss is answered iff the padded raster fits the atlas; one that does not fit empties the atlas |
| `AtlasRuns.PlaceIsFirstFit` | src/glyph_atlas.rs:794-829 | A raster goes behind one pixel of border on the first shelf that is tall enough, wastes at most a quarter and has room, else on a new shelf of its own height at the bottom, else nowhere |
| `AtlasRuns.RecycledIff` | src/glyph_atlas.rs:661-703 | A shelf is recycled iff nothing had room, the padded width fits and some shelf is tall enough |
| `AtlasRuns.LookupCounts` | src/glyph_atlas.rs:633-703 | Every miss with a raster counts once and a hit never; tried evictions and recycled shelves are counted, the former saturating |
| `AtlasRuns.PlaceAfterRecycle` | src/glyph_atlas.rs:800-812 | After recycling, `place` succeeds iff the recycled shelf wastes at most a quarter of its height |
| `AtlasRuns.MissRebuildsIff` | src/glyph_atlas.rs:633-648 | The atlas is rebuilt iff nothing had room and no shelf within the waste rule was recycled |
| `AtlasRuns.MissDropsAtMostOneShelf` | src/glyph_atlas.rs:661-703 | A miss without rebuild drops exactly the keys of the recycled shelf; every other entry is unchanged |
| `AtlasRuns.StalestIsMinimal` | src/glyph_atlas.rs:672-695 | The recycled shelf's youngest stamp is minimal among the shelves tall enough, and less than that of any earlier one |
| `AtlasRuns.YoungestTrailsAccess` | src/glyph_atlas.rs:453 | A shelf's youngest stamp trails its true last access by fewer than eight frames |
| `AtlasRuns.RecycledShelfIsNearlyLeastRecent` | src/glyph_atlas.rs:672-695 | The recycled shelf was truly last used less than eight frames after any other shelf tall enough |
| `AtlasRuns.FetchKeepsStamped` | src/glyph_atlas.rs:541-553 | A lookup keeps every stamp within eight frames of the true access |
| `AtlasRuns.RunKeepsStamped` | src/glyph_atlas.rs:505-553 | With frame ids that never fall, every reachable state has stamps within eight frames of the truth |
| `AtlasRuns.RunKeepsInv` | src/glyph_atlas.rs:383-440 | Every reachable state satisfies packing, bijection of cache and shelves, and painted texture |
| `AtlasRuns.TextureAgreesWithRasterising` | src/glyph_atlas.rs:535-627 | After any run in which each key always rasterises alike, every cached rectangle holds, row by row and byte by byte, what the rasteriser makes of the key's own font, glyph and phase, or what the caller painted, and its entry has that raster's metrics |
| `AtlasEntries.QuietRunKeepsHandedOut` | src/frame_build/pane_cache.rs:158-172 | Over any run from a state satisfying the invariant in which neither `rebuild_count` nor `evict_count` moves, every entry keeps its rectangle, metrics and raster, and no pixel inside it changes |
| `AtlasEntries.RunKeepsEntries` | src/glyph_atlas.rs:535-703 | Neither counter ever falls, and where both stand still at the end every entry has been kept throughout |
| `AtlasEntries.RecycledRectangleShowsAnother` | src/glyph_atlas.rs:650-703 | A run in which a recycled rectangle shows another key's pixels while `rebuild_count` stands still |
| `GlyphAtlas.GlyphAtlas.BeginFrame` | src/glyph_atlas.rs:505-507 | Sets the frame and nothing else |
| `GlyphAtlas.GlyphAtlas.TakeRasterised` | src/glyph_atlas.rs:513-515 | Returns the miss count and resets it |
| `GlyphAtlas.GlyphAtlas.Place` | src/glyph_atlas.rs:794-829 | The in-place packer computes the specified placement |
| `GlyphAtlas.GlyphAtlas.FindStalest` | src/glyph_atlas.rs:672-691 | The scan finds the first shelf of minimal youngest stamp among those tall enough |
| `GlyphAtlas.GlyphAtlas.EvictLruShelf` | src/glyph_atlas.rs:661-703 | Recycles exactly that shelf: its keys leave the cache, its cursor returns to 0, the texture stays |
| `GlyphAtlas.GlyphAtlas.Rebuild` | src/glyph_atlas.rs:774-778 | Empties shelves and cache and counts the rebuild |
| `GlyphAtlas.GlyphAtlas.PlaceOrEvict` | src/glyph_atlas.rs:633-648 | Place, else recycle and place, else rebuild and place |
| `GlyphAtlas.GlyphAtlas.CommitRaster` | src/glyph_atlas.rs:609-627 | Places, uploads and records a fresh raster under its key |
| `GlyphAtlas.GlyphAtlas.Hit` | src/glyph_atlas.rs:541-553 | A hit rewrites the stamp iff it is eight or more frames old, by wrapping subtraction, and changes nothing else of the cache |
| `GlyphAtlas.GlyphAtlas.DropAllGlyphs` | src/glyph_atlas.rs:774-792 | Leaves no shelf and no entry, and counts a rebuild |
| `GlyphAtlas.GlyphAtlas.GetOrRasterize` | src/glyph_atlas.rs:535-570 | On a miss the entry shows the bytes, size and bearings the rasteriser gives for the key's font and glyph, for at least one cell; on a hit it is the held one |
| `GlyphAtlas.GlyphAtlas.GetOrRasterizeNatural` | src/glyph_atlas.rs:580-607 | The same for natural-size glyphs, with the key's sub-pixel phase and one cell |
| `GlyphAtlas.GlyphAtlas.GetOrInsertCustomRaster` | src/glyph_atlas.rs:720-767 | The same for a buffer painted by the caller: its bytes and size, no left bearing, and the baseline as a signed 16-bit number |
| `LinkCache.AskedIffLapsed` | src/link_probe.rs:155-186 | An ask queues its path iff the answer is missing or has lapsed, the path is not in flight and there is room; otherwise queue and in-flight stay |
| `LinkCache.LandedLapses` | src/link_probe.rs:209-229 | A landed answer is asked about again from 300 s after landing on when the probe took 20 ms or more, else from 5 s on |
| `LinkCache.InsertHotAnswers` | src/link_probe.rs:252-257 | An insert answers its own path and changes another answer only by forgetting it; both maps stay within CACHE_CAP |
| `LinkCache.InsertHotCostsOne` | src/link_probe.rs:252-257 | Each insert costs a path one unit of its budget of survivable inserts; a path is held iff its budget is not negative |
| `LinkCache.DefiniteAnswerSurvives` | src/link_probe.rs:155-186 | After a definite answer the next CACHE_CAP inserts, of anything, leave the path held |
| `LinkCache.OneMoreInsertForgets` | src/link_probe.rs:252-257 | The bound is exact: CACHE_CAP + 1 inserts can forget the path |
| `LinkCache.AnswerIgnoresClock` | src/link_probe.rs:155-186 | A lapsed entry is still served: the verdict does not depend on the clock |
| `LinkProtocol.RunKeepsInv` | src/link_probe.rs:155-235 | Every interleaving keeps in-flight = queue plus probed path without duplicates, bounds, latest verdicts, and the repaint condition of every draw |
| `LinkProtocol.NoLostRepaint` | src/link_probe.rs:189-235 | A draw whose definite verdict is outdated, or an unknown that was not dropped and is no longer in flight, has its generation exceeded by the counter plus the pending bump |
| `LinkProtocol.AlwaysBounded` | src/link_probe.rs:72-74 | Queue and both maps stay bounded; in-flight is exactly the queued paths and the probed one |
| `LinkProtocol.AnswersAreLatestLanded` | src/link_probe.rs:217-229 | A definite answer is the latest verdict the worker landed for that path |
| `LinkProtocol.LandIsNewsWhenItChanges` | src/link_probe.rs:217-229 | Landing reports news whenever it changes a held verdict or lands the first one |
| `LinkProtocol.AnswerIsNotWithdrawn` | src/link_probe.rs:155-235 | After a definite answer no interleaving makes the path unknown until more than CACHE_CAP inserts (landings and promotions) have happened; other steps are unlimited |
| `LinkLiveness.StepIsProgress` | src/link_probe.rs:155-235 | No step of either party moves an awaited repaint away; every step the worker takes brings it nearer |
| `LinkLiveness.AwaitedIsPassed` | src/link_probe.rs:189-235 | In every run without a stop, after `Distance` worker steps, whatever the renderer does in between, the counter has passed any generation a pane has read while a path in flight is unanswered or a bump is pending |
| `LinkLiveness.RepaintIsReachable` | src/link_probe.rs:189-235 | Until then the worker always has a step that brings it nearer |
| `LinkLiveness.OutdatedIsDue` | src/link_probe.rs:155-235 | In every reachable state a draw that is outdated, or unknown and not dropped, has been passed, or a bump is pending, or a path in flight is unanswered |
| `LinkLiveness.RepaintHappens` | src/link_probe.rs:189-235 | Every such draw, and every dropped one while any path in flight is unanswered, is passed within 2 * QUEUE_CAP + 2 worker steps of any run without a stop |
| `LinkStranded.RepaintIsSureIff` | src/link_probe.rs:155-257 | For any draw not yet passed, dropped or not: every run without a stop that brings the worker to rest passes it iff a bump is pending, a path in flight is unanswered, or two or more held paths in flight are in the cold map only and the hot map has no room for all but one |
| `LinkStranded.WithRoomUnansweredDecides` | src/link_probe.rs:189-257 | Where the hot map has room for all in flight, that is iff a bump is pending or a path in flight is unanswered; otherwise the worker alone can come to rest without a repaint |
| `LinkStranded.RunStaysSure` | src/link_probe.rs:155-257 | What makes the repaint sure stays, in every interleaving, until the counter moves |
| `LinkStranded.DroppedAskIsStranded` | src/link_probe.rs:171-186 | A run in which a dropped ask is drawn unknown, its path has no verdict, its pane has read the present counter, and the worker is idle |
| `LinkProtocol.UnknownIsQueuedUnlessDropped` | src/link_probe.rs:171-186 | An unknown answer is dropped iff its path ends up neither queued nor being probed |
| `LinkProtocol.FullQueueDropsAnAsk` | src/link_probe.rs:171-186 | A run in which the ask after QUEUE_CAP others is drawn unknown with nobody working on it |
| `LinkProbe.LinkProbe.InsertHot` | src/link_probe.rs:252-257 | The in-place insert: at 4096 entries the hot map becomes the cold one |
| `LinkProbe.LinkProbe.LookupOrQueue` | src/link_probe.rs:155-186 | The lock region answers hot before cold, and queues the path iff its answer is missing or lapsed and there is room for it |
| `LinkProbe.LinkProbe.PopFront` | src/link_probe.rs:189-208 | The worker's first lock region: the front of the queue, or nothing when it is empty or the worker must stop |
| `LinkProbe.LinkProbe.Record` | src/link_probe.rs:210-229 | The worker's second lock region: the landed entry with its lifetime, the path out of flight, and news iff the held verdict differs or there is none |
| `LinkProbe.Ask` | src/link_probe.rs:155-186 | One ask is one `Probe` step of the protocol |
| `LinkProbe.WorkOnce` | src/link_probe.rs:189-235 | One round of the worker is its take, land and bump steps of the protocol |
| `RangeTables.Coalesce` | bin/_regen_unicode_tables.py:58-67 | Keeps what every code point is given, overlapping ranges of different values included; if every range has its start at or before its end and each code point is given one value, the result is sorted, disjoint and maximal |
| `RangeTables.Lookup` | bin/_regen_unicode_tables.py:219-230 | Binary search returns the value of the covering range, or the default iff there is none |
| `RangeTables.BinarySearch` | bin/_regen_unicode_tables.py:391-397 | Finds the covering range iff there is one |
| `RangeTables.SameMeaningSameValue` | bin/_regen_unicode_tables.py:58-67 | Consistent tables of the same meaning answer alike at every code point |
| `RangeTables.MaximalTableIsUnique` | bin/_regen_unicode_tables.py:58-67 | A meaning has one maximal table: each range of one is a range of the other |
| `UnicodeTables.UnpackPack` | bin/_regen_unicode_tables.py:256-264 | Unpacking undoes packing, and only the default packs to zero |
| `UnicodeTables.PackLayout` | bin/_regen_unicode_tables.py:256-264 | Bits 0-3 are the class code, bit 4 the pictographic flag, bits 5-6 the conjunct class |
| `UnicodeTables.ReservedIsOther` | bin/_regen_unicode_tables.py:375 | A class code no class has is read as Other |
| `UnicodeTables.SourcesSay` | bin/_regen_unicode_tables.py:219-230 | Of consistent ranges the looked-up value is the one some range gives, else the default |
| `UnicodeTables.SliceSources` | bin/_regen_unicode_tables.py:232-250 | Between neighbouring boundaries the source triple is constant |
| `UnicodeTables.Sweep` | bin/_regen_unicode_tables.py:242-254 | The swept table gives each code point the class, flag and conjunct class that some source range gives it and else the default, is sorted, disjoint and maximal, and has no all-default entry |
| `UnicodeTables.PackedValue` | bin/_regen_unicode_tables.py:263-264 | Packing a table and unpacking its answers keeps the answers |
| `UnicodeTables.PackedIsCanonical` | bin/_regen_unicode_tables.py:263-264 | The packed table is still sorted, disjoint and maximal, without a zero entry |
| `UnicodeTables.ClusterProps` | bin/_regen_unicode_tables.py:390-406 | The emitted lookup reads the packed table's value at any code point |
| `UnicodeTables.EmitUnicodeData` | bin/_regen_unicode_tables.py:176-264 | For any three consistent range sets the emitted byte of every code point unpacks to exactly the values the raw rows give it, and the table is canonical |
| `UnicodeTables.HasEmojiPresentation` | bin/_regen_unicode_tables.py:81-122 | True iff some raw range covers the code point |
| `FeedScanner.SkipString` | src/cc_usage.rs:297-307 | Returns the index behind the literal as the recursive reading of it gives it |
| `FeedScanner.ObjectsInArray` | src/cc_usage.rs:263-294 | The depth-counting loop computes the specified scan |
| `FeedScanner.TopLevelValue` | src/cc_usage.rs:316-345 | The lookup loop computes the specified outcome, the out-of-range slice included |
| `FeedGrammar.LiteralRead` | src/cc_usage.rs:297-307 | A string literal is read whole, whatever escapes it holds and whatever follows |
| `FeedGrammar.ObjectsInArrayAgreesWithGrammar` | src/cc_usage.rs:263-294 | For every well-formed array and any text behind it, exactly the array's own object elements are returned, in order, as written |
| `FeedGrammar.TopLevelValueAgreesWithGrammar` | src/cc_usage.rs:316-345 | For every well-formed object the text from the value of its own first member of that name is returned, nothing if there is none; never a nested member or a string value |
| `FeedGrammar.StrayCloserIsCounted` | src/cc_usage.rs:263-294 | A text with a closing bracket too many in front is scanned one level deeper |
| `FeedCrash.SkipFromLex` | src/cc_usage.rs:297-307 | Skipping a string ends past the text only on a cut escape; otherwise a character-by-character reader stands outside the string there, or in it at the end |
| `FeedCrash.SomeLookupCrashesIffCut` | src/cc_usage.rs:297-345 | Some key's lookup crashes iff the text ends just after a backslash in a string |
| `FeedCrash.CrashesIffCutBeforeKey` | src/cc_usage.rs:297-345 | A key's lookup crashes iff the text is so cut and the part before the cut string does not hold the key; on that part no lookup crashes |
| `FeedCrash.CrashesOnlyOnCutEscape` | src/cc_usage.rs:297-345 | A text so cut never reads as absent |
| `FeedCrash.CutKeyCrashes` | src/cc_usage.rs:297-345 | A concrete feed of four characters on which the lookup crashes |
| `NaturalOrder.NaturalCmp` | src/cc_usage.rs:194-226 | The two-cursor loop is lexicographic order on tokens: digit runs by value, other bytes singly |
| `NaturalOrder.StrippedOrder` | src/cc_usage.rs:206-232 | Length first, then bytes, on runs stripped of zeros is order by numeric value |
| `NaturalOrder.NaturalIsTotalPreorder` | src/cc_usage.rs:194-226 | Total, transitive, antisymmetric up to equal tokens |
| `NaturalReading.PrefixComesFirst` | src/cc_usage.rs:194-226 | A name comes before every longer one it starts, unless its last number goes on |
| `NaturalReading.NumbersDecide` | src/cc_usage.rs:194-226 | Behind one common prefix the smaller decimal number comes first; equal ones leave it to the rest |
| `NaturalReading.BytesDecide` | src/cc_usage.rs:194-226 | Behind one common prefix the smaller byte comes first, when the two are not both in numbers |
| `NaturalReading.BytesOrder` | src/cc_usage.rs:184 | E-mails compare by their first differing byte, a prefix first |
| `FeedOrder.NameDecides` | src/cc_usage.rs:184 | The name decides whatever the e-mails are; the e-mails decide exactly when the names tie |
| `FeedOrder.AccountsArePreorder` | src/cc_usage.rs:184 | Name then e-mail is transitive, also where one of the two is strict |
| `FeedOrder.AccountsReverse` | src/cc_usage.rs:184 | It is reflexive, and reversed by exchanging the accounts |
| `FeedOrder.SortFeedSorts` | src/cc_usage.rs:184 | The stable sort gives a sorted list of the same accounts, tied ones in feed order |
| `FeedOrder.StableSortIsUnique` | src/cc_usage.rs:184 | A list is this sort's result iff it is sorted and keeps tied accounts in feed order, whatever stable algorithm made it |
| `FeedOrder.SortForgetsFeedOrder` | src/cc_usage.rs:179-184 | Every shuffle of a feed is shown in one order iff accounts that tie by name and e-mail are the same account |
| `Calendar.NextDayIsOneMore` | src/cc_usage.rs:378-389 | From each valid Gregorian date of any year to the next the day number rises by exactly one |
| `Calendar.DayNumberCountsDays` | src/cc_usage.rs:378-389 | The difference of two day numbers is the number of days between the dates; 1970-01-01 is 0 |
| `Calendar.DayNumberOrders` | src/cc_usage.rs:378-389 | Day numbers are equal iff the dates are, and ordered as the dates |
| `Calendar.ReadsIffFields` | src/cc_usage.rs:370-390 | A timestamp is read iff it has 19 bytes and its six fields are signed numbers |
| `Calendar.ReadsSigned` | src/cc_usage.rs:370-390 | A minus sign in front of a field counts, a plus sign does not |
| `Calendar.ReadsStamp` | src/cc_usage.rs:370-390 | A written timestamp is read as its seconds since 1970-01-01T00:00:00 |
| `CrcRegisters.CrcBitsAreBijection` | src/png.rs:26-30 | The register step, any number of times, is a bijection: it has an inverse, both ways |
| `CrcRegisters.ShiftBit` | src/png.rs:26-30 | The branch-free mask form is the step by the low bit |
| `CrcPolynomial.CrcIsRemainder` | src/png.rs:23-33 | For every message the CRC's bits are the complemented remainder of the message polynomial, moved up by 32 degrees with ones added to its top, by the generator 0x104C11DB7, as long division computes it |
| `CrcPolynomial.DivisionIsShifting` | src/png.rs:26-30 | Long division and the shift register come to the same remainder |
| `Checksums.Crc32` | src/png.rs:23-33 | The byte loop computes the specified CRC |
| `Checksums.CrcByteInjective` | src/png.rs:23-33 | The byte step is injective in the register and in the byte |
| `Checksums.OneByteChangesCrc` | src/png.rs:23-33 | Two messages of one length that differ in exactly one byte have different CRCs |
| `Checksums.Adler32` | src/png.rs:36-43 | The reduced loop computes the two unreduced sums mod 65521, the second in the high half, with no 32-bit overflow |
| `Checksums.AdlerHalves` | src/png.rs:36-43 | The low half is one more than the sum of the bytes, the high half the length plus each byte times its distance from the end, both modulo 65521 |
| `Checksums.SumOfSumsClosedForm` | src/png.rs:36-43 | The second sum is the length plus each byte times its distance from the end |
| `PngEncoder.AppendChunk` | src/png.rs:45-53 | Length, kind, body and CRC over kind and body |
| `PngEncoder.WriteBlocks` | src/png.rs:57-74 | The block loop writes the specified stored blocks |
| `PngEncoder.EncodeZlib` | src/png.rs:57-74 | The header 0x78 0x01, stored blocks and Adler-32 |
| `PngEncoder.EncodeRgba` | src/png.rs:77-102 | The specified file, or an error iff the buffer is too short; bytes beyond the image are ignored |
| `PngEncoder.CollectLines` | src/png.rs:85-91 | Filter byte 0 before every line |
| `PngEncoder.EncodeBgra` | src/png.rs:109-122 | The file of the image with the first and third byte of every pixel exchanged, or an error iff the buffer is too short |
| `PngEncoder.CountIsProduct` | src/png.rs:77-86 | The required length is width times height times four |
| `PngEncoder.SwappedSwaps` | src/png.rs:109-122 | The swapped pixels are, place by place, the given ones with first and third byte exchanged |
| `PngEncoder.SwappedTwice` | src/png.rs:109-122 | Exchanging red and blue twice changes nothing |
| `PngDecoder.OnlyLastIsFinal` | src/png.rs:57-74 | Exactly the last stored block is final; every other one holds 65535 bytes |
| `PngDecoder.ChunkReadsIff` | src/png.rs:45-53 | A chunk of any length is read back whatever follows iff its length is below 2^32 and within the limit |
| `PngDecoder.WrappedDataFails` | src/png.rs:45-53 | A file whose compressed data reaches 2^32 bytes, so that its length field wraps, decodes to nothing at any limit that admits the header |
| `PngDecoder.InflateUndoesZlib` | src/png.rs:57-74 | Inflating the stored stream gives back input of any length |
| `PngDecoder.UnfilterUndoesScanLines` | src/png.rs:85-91 | Removing filter bytes gives back the pixels |
| `PngDecoder.DecodeUndoesEncode` | src/png.rs:77-102 | Decoding gives back width, height and pixels iff both dimensions are positive and the compressed data is below 2^32 bytes and within the limit; otherwise it fails |
| `PngDecoder.FileDecodes` | src/png.rs:77-102 | A file no longer than the limit, with pixels, decodes to its image |
| `PngDecoder.RoundTripRgba` | src/png.rs:77-102 | Encode then decode on the methods themselves, at any limit: the image or, exactly where the file does not fit, nothing |
| `PngDecoder.RoundTripBgra` | src/png.rs:109-122 | Encoded BGRA decodes to the exchanged pixels, at any limit, or exactly where the file does not fit to nothing |
| `Recency.KeptIffRecent` | src/font_shape.rs:331-379 | A key is kept iff it was requested and fewer than `cap` different keys were requested since |
| `Recency.PlaceIsSince` | src/font_shape.rs:331-379 | A key's place in the list is the number of different keys requested since |
| `Recency.KeptStep` | src/font_shape.rs:331-379 | How one more request changes the kept list |
| `ShapeCache.OptsSurviveKey` | src/font_shape.rs:284-289 | The option bits of a key give back the options |
| `ShapeCache.WithinCapIff` | src/font_shape.rs:361-378 | The cache holds one entry for each distinct key up to its room; `cap` bounds the entries iff it is positive or nothing was asked for |
| `ShapeCache.HeldIffRecent` | src/font_shape.rs:331-379 | A key is held iff it was asked for and fewer than `cap` different keys were since, or none at capacity 0 |
| `ShapeCache.OldestIsLast` | src/font_shape.rs:355-366 | With stamps in recency order the entry of oldest stamp is the last of the list |
| `ShapeCache.AddingHolds` | src/font_shape.rs:366-378 | Inserting after evicting keeps the entries equal to the kept list |
| `ShapeCache.RestampHolds` | src/font_shape.rs:340-354 | A hit moves its key to the front of the kept list |
| `ShapeCache.ShapeCache.Oldest` | src/font_shape.rs:355-366 | The scan finds the key of least stamp |
| `ShapeCache.ShapeCache.ShapeWith` | src/font_shape.rs:331-379 | After any requests the cache holds exactly the `Room(cap)` latest distinct keys, which is `cap` of them, or one at capacity 0; the result equals a fresh shaping; hits and misses are counted |
| `PaneNames.Assign` | src/pane_name.rs:51-76 | Each pane's session and name, in input order |
| `PaneNames.Group` | src/pane_name.rs:51-58 | The map holds for each base name its panes, in input order |
| `PaneNames.Resolve` | src/pane_name.rs:94-149 | The filtering and sorting resolver computes the specified meaning |
| `PaneNames.FirstPosition` | src/pane_name.rs:66-74 | The first index with the session id |
| `PaneNamesProofs.NameIsRank` | src/pane_name.rs:51-76 | A lone pane has the plain base name; otherwise its number is its place in reading order |
| `PaneNamesProofs.NumberingIgnoresOrder` | src/pane_name.rs:51-76 | The names do not depend on the order the panes come in |
| `PaneNamesProofs.RankFollowsReadingOrder` | src/pane_name.rs:59-64 | Of two panes of one name, the one in the earlier window, then row, then column, then session has the smaller number; a pane off the screen comes after those on it |
| `PaneNamesProofs.RemovalClosesGap` | src/pane_name.rs:51-76 | Removing a pane lowers exactly the higher numbers of its name, by one |
| `PaneResolution.NumberedSplits` | src/pane_name.rs:152-160 | A numbered name splits back into base and number |
| `PaneResolution.NamesDistinctIffNoCollision` | src/pane_name.rs:51-76 | No two panes share a name iff no plain directory is spelled like a number handed out |
| `PaneResolution.NumberLikeDirectoryCollides` | src/pane_name.rs:51-76 | `spg`, `spg`, `spg#1`: two panes share a name |
| `PaneResolution.ResolveInvertsAssignIff` | src/pane_name.rs:94-149 | With base names that survive trimming, lower-casing and splitting, every name handed out resolves to its pane iff no two base names differ in case only |
| `PaneResolution.CaseVariantsBreakResolve` | src/pane_name.rs:94-149 | Of any two base names that differ in case only, some pane's name does not resolve to it |
| `PaneResolution.CaseVariantIsAmbiguous` | src/pane_name.rs:94-149 | `Spg` and `spg`: names differ, and `Spg` is refused |
| `PaneResolution.ResolveUndoesAssign` | src/pane_name.rs:94-149 | The positive half, pane by pane |
| `PaneResolution.NumbersOutsideTheGroup` | src/pane_name.rs:94-149 | A lone pane answers to number 1; a number not handed out is an error |
| `PaneResolution.BareSharedNameIsAmbiguous` | src/pane_name.rs:94-149 | A bare shared name is an error that lists its panes |
| `PaneResolution.CollisionBreaksResolve` | src/pane_name.rs:94-149 | Where names collide, some pane's name does not resolve to it |
| `PaneResolution.ParentNarrows` | src/pane_name.rs:105-118 | A longer path tail matches no more directories |
| `PaneTargets.BaseNameIsLastComponent` | src/pane_name.rs:80-88 | The base name is the last path component, whatever stands before it and however many slashes behind |
| `PaneTargets.RootHasNoName` | src/pane_name.rs:80-88 | A directory of slashes only is called `?` |
| `PaneTargets.SplitIffNumbered` | src/pane_name.rs:152-160 | A target is read as name and number iff it is a name, a hash sign, perhaps a plus sign, and digits within 64 bits |
| `PaneTargets.EmptyIffBlank` | src/pane_name.rs:94-98 | A target is empty iff nothing is left of it after trimming and lower-casing |
| `PaneTargets.PathMeans` | src/pane_name.rs:122-149 | A target that is nobody's name means the one pane whose path it is, or whose path ends in a slash and it, or contains it; none and several are errors |
| `RejoinLines.SplitUndoesJoin` | src/cc.rs:38-59 | Joining lines with newlines and splitting gives the lines back |
| `RejoinProofs.RejoinConserves` | src/cc.rs:32-64 | The sequence of non-whitespace characters is unchanged, for every text |
| `RejoinProofs.RejoinKeepsShape` | src/cc.rs:40-59 | Blank lines and paragraphs alternate as before |
| `RejoinProofs.FoldCountsBreaks` | src/cc.rs:91-116 | How many lines a folded paragraph has: one, and one more for each break that the two lines around it keep |
| `RejoinProofs.RejoinEnds` | src/cc.rs:37-63 | The result ends in a newline iff the last of two or more lines is blank |
| `RejoinProofs.NewlineIsKept` | src/cc.rs:37-63 | A final newline is kept, by the join alone |
| `RejoinRules.BulletIff` | src/cc.rs:151-177 | A line is a list item iff it is a marker character, or digits and a full stop or parenthesis, then white space |
| `RejoinRules.WideIff` | src/cc.rs:185-202 | The wide characters are exactly the thirteen ranges |
| `RejoinRules.BreakRule` | src/cc.rs:88-146 | A break stays before a list item, before a fence, and after a sentence end if the next line begins in upper case or wide; otherwise it becomes nothing between two wide characters and else a space |
| `RejoinRules.KeptRule` | src/cc.rs:88-146 | The same at every break of a paragraph |
| `RejoinRules.FencedIsLeftAlone` | src/cc.rs:75-84 | A paragraph of several lines with a fence in it keeps all its lines, trimmed behind only |
| `RejoinRules.TwoLinesRejoin` | src/cc.rs:32-146 | Two lines rejoin to the first, trimmed, and what the rule puts for the break, and the second |
| `RejoinTwice.RejoinTwiceIffStable` | src/cc.rs:32-177 | Rejoining twice equals rejoining once iff no line but a paragraph's first is a bare bullet that stays alone |
| `RejoinTwice.TrimmedTextsAreStable` | src/cc.rs:32-177 | In particular when no line has trailing white space |
| `RejoinTwice.LoneBulletIsStranded` | src/cc.rs:121-146 | `"a\n- "` is a text on which rejoining twice differs |
| `RejoinTwice.ParagraphTwice` | src/cc.rs:70-116 | A paragraph's output folds to itself iff it is fenced or strands no bare bullet |
| `RejoinBreaks.BareCore` | src/cc.rs:151-177 | White space behind makes a bullet of a line that is exactly a marker, and of no other |
| `Rejoiner.ParagraphIsSpelled` | src/cc.rs:91-116 | An unfenced paragraph becomes its trimmed lines with each break replaced by a newline, a space or nothing, decided by the two lines around it alone |
| `RejoinBreaks.FoldTwice` | src/cc.rs:91-116 | The lines of a folded paragraph fold to themselves iff no line but the first is a bare bullet that stays alone |
| `Rejoiner.RejoinParagraph` | src/cc.rs:70-116 | The growing, truncated buffer holds the fold's lines, joined |
| `Rejoiner.RejoinWrappedParagraphs` | src/cc.rs:32-64 | The walk over lines computes the specified rejoining |
| `Rejoiner.Segments` | src/cc.rs:45-59 | One segment for each blank line and each paragraph |
| `WindowRuns.RunKeepsInv` | src/app.rs:1266-1417 | Every run keeps the borrow discipline, the queue's conservation, the account of windows and the count |
| `WindowRuns.NeverBorrowedTwice` | src/app.rs:1319-1417 | No run, however AppKit calls back, borrows the app state twice |
| `WindowRuns.OpsPoppedOnceInOrder` | src/app.rs:1670-1680 | Ops are popped once each, in queue order; none is left when the thread is back in the run loop after a dispatch |
| `WindowRuns.BootOpsWait` | src/app.rs:1949-1972 | What is asked for while booting waits until the first dispatch |
| `WindowRuns.CountMirrorsIffChanged` | src/app.rs:1309 | WINDOW_COUNT equals the number of windows iff a window has been stored or removed; before, it is 0 with one window |
| `WindowRuns.WakeReachesTheApp` | src/app.rs:1334-1338 | A handler starts iff the addressee is open, or the event is a wake and any window is |
| `WindowRuns.OnePlace` | src/app.rs:1670-1776 | With fresh ids, each id whose Open was popped is in exactly one place: open, being shown, closed or dropped |
| `WindowRuns.WindowsStayDistinct` | src/app.rs:1670-1776 | With fresh ids, window ids stay distinct |
| `WindowRuns.CloseTakesEffectIff` | src/app.rs:1758-1774 | A Close popped after its Open removes the window iff it is neither being shown nor closed already; otherwise nothing changes |
| `WindowRuns.IdleAccount` | src/app.rs:1670-1776 | Back in the run loop every window asked for is open unless a Close took it, and nothing else removes one |
| `WindowRuns.CaretsMoveOnRequest` | src/app.rs:1746-1757 | No step changes a caret but a popped request for an open window, which sets just that one |
| `WindowRuns.WindowsKeepTheirOrder` | src/app.rs:1670-1776 | No step changes the windows but storing a shown one last, a Close taking its own out, and the end of the run loop |
| `WindowRuns.PerformCloseAsks` | src/app.rs:1725-1745 | A popped PerformClose calls AppKit iff its window is open, and changes no window |
| `WindowRuns.ShownIsAnnounced` | src/app.rs:1682-1724 | A shown window is stored and told that it is open at once |
| `WindowRuns.EventIsDelivered` | src/app.rs:1319-1338 | An event is delivered once under its own id and kind, or to nobody |
| `WindowRuns.HandlerThenDrain` | src/app.rs:1340-1417 | A handler is followed by the dev window's actions and then by the drain loop, with the borrow released |
| `WindowExamples.EarlyCloseIsLost` | src/app.rs:1682-1724 | A run in which a nested drain pops the Close before the window is stored, and the window stays open |
| `WindowOps.WindowQueue.constructor` | src/app.rs:1935-1940 | Boot stores one window and leaves the count at 0 |
| `WindowOps.WindowQueue.Enqueue` | src/app.rs:1618-1663 | A request is queued and nothing else |
| `WindowOps.WindowQueue.FindWindow` | src/app.rs:1274-1276 | The first index of the id |
| `WindowOps.WindowQueue.Target` | src/app.rs:1334-1338 | Who gets an event |
| `WindowOps.WindowQueue.DispatchEventFor` | src/app.rs:1319-1417 | Follows the machine; ends with the stack as before and the queue empty, however deep the callbacks |
| `WindowOps.WindowQueue.DrainPendingWindows` | src/app.rs:1670-1776 | Follows the machine; the loop ends with the queue empty |
| `WindowOps.WindowQueue.OpenNext` | src/app.rs:1682-1724 | Shows, stores, counts and announces a window |
| `WindowOps.WindowQueue.PerformCloseNext` | src/app.rs:1725-1745 | Asks AppKit to close an open window |
| `WindowOps.WindowQueue.SetCaretRectNext` | src/app.rs:1746-1757 | Sets the caret of an open window only |
| `WindowOps.WindowQueue.CloseNext` | src/app.rs:1758-1774 | Closes a window, in the machine's order |
| `WindowOps.WindowQueue.TakeClosing` | src/app.rs:1758-1768 | Takes the window out of state and count before AppKit hears of the close, iff it is open |
| `WindowOps.WindowQueue.WindowCount` | src/app.rs:1849-1855 | The count, right iff a window has been stored or removed |
| `WindowOps.WindowQueue.RunLoop` | src/app.rs:1972-1976 | The run loop serves every event, then drops the state |

## Left out

- CoreText and CoreGraphics rasterising and shaping, Metal, AppKit views, the Carbon keyboard lookup: foreign calls; the rasteriser and the shaper are parameters.
- `GlyphKey` bit packing and the cluster hash: keys are values, so a hash collision between two clusters is not modelled.
- GlyphAtlas.GlyphAtlas.Place: does not model the 32-bit wrap of padded sizes near 2^32 or of `y` coordinates, because atlas dimensions are taken below 2^16 as the entry's fields need.
- GlyphAtlas.GlyphAtlas.CommitRaster: the counters of evictions and rebuilds do not wrap in the model.
- LinkProtocol.NoLostRepaint: atomics are sequentially consistent in the model, the counter does not wrap, and a step stands for the renderer reading the counter before it probes, as src/frame_build/pane_cache.rs:160-207 does.
- LinkProtocol.Next: waking the worker, the condition variable and the poisoned lock are left out; the worker's step is enabled when there is work.
- Reading the UCD files and writing Rust text in the table compiler: the model starts at the parsed ranges and ends at the table's values.
- FeedScanner.ObjectsInArray: works on characters; UTF-8 byte offsets and the 32-bit depth counter are not modelled.
- `str_field`, `num_field`, `parse` and the account rows of src/cc_usage.rs: reading a number or unescaping one field adds no property that spans functions.
- Local-time functions of src/cc_usage.rs: decided by the C library's time zones.
- PngEncoder.EncodeRgba: does not model the overflow of width * height * 4 in a machine word, nor the error text.
- ShapeCache.ShapeCache.ShapeWith: the hit and miss totals and the tick do not wrap.
- PaneResolution.ResolveInvertsAssignIff: base names that are empty, have white space at an end or end in a number of their own are outside the equivalence; for those the search by path tail and substring decides, and `PaneNames.Resolve` says how.
- PaneNames.Resolve: an error carries the choices, not the wording of its message.
- PaneNamesProofs.NumberingIgnoresOrder: `sort_by_key` is a specification function; the library's sort is not modelled.
- RejoinTwice.RejoinTwiceIffStable: asks that no list marker and no ASCII digit count as upper case, as in Unicode.
- WindowOps.WindowQueue.DispatchEventFor: redraws, exit requests and the handlers' own work are left out; a handler is what it enqueues.
- WindowOps.WindowQueue.OpenNext: building and placing the native window is part of the AppKit call; window contexts are their ids.
- src/pane.rs, src/pane_read.rs, src/main.rs, src/frame_scene.rs: they rest on the emulator and scene crates, which are not part of this model.
- src/font_cache.rs: its LRU is the argument of `ShapeCache` again.

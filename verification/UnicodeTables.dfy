/**
 The compiler of bin/_regen_unicode_tables.py: three property range tables swept into one
 table of packed bytes, and the emitted Rust lookup that unpacks it.
 */
module UnicodeTables {
  import opened RangeTables

  datatype GBP = Other | CR | LF | Control | Extend | ZWJ | RegionalIndicator | Prepend
               | SpacingMark | L | V | T | LV | LVT

  datatype InCB = NoBreak | Linker | Consonant | ConjunctExtend

  datatype Props = Props(gbp: GBP, pict: bool, incb: InCB)

  const DEFAULT := Props(Other, false, NoBreak)

  /* ---------------------------------------------------------------- packing */

  function GbpBits(g: GBP): bv8 {
    match g
    case Other => 0 case CR => 1 case LF => 2 case Control => 3 case Extend => 4 case ZWJ => 5
    case RegionalIndicator => 6 case Prepend => 7 case SpacingMark => 8
    case L => 9 case V => 10 case T => 11 case LV => 12 case LVT => 13
  }

  function InCBBits(i: InCB): bv8 {
    match i case NoBreak => 0 case Linker => 1 case Consonant => 2 case ConjunctExtend => 3
  }

  /** Bits 0-3 break class, bit 4 pictographic, bits 5-6 conjunct class. */
  function Pack(p: Props): bv8 {
    GbpBits(p.gbp) | (if p.pict then 0x10 else 0) | (InCBBits(p.incb) << 5)
  }

  function UnpackGbp(bits: bv8): GBP {
    match bits & 0x0F
    case 1 => CR case 2 => LF case 3 => Control case 4 => Extend case 5 => ZWJ
    case 6 => RegionalIndicator case 7 => Prepend case 8 => SpacingMark
    case 9 => L case 10 => V case 11 => T case 12 => LV case 13 => LVT
    case _ => Other
  }

  function UnpackIncb(bits: bv8): InCB {
    match (bits >> 5) & 0x03
    case 1 => Linker case 2 => Consonant case 3 => ConjunctExtend
    case _ => NoBreak
  }

  function Unpack(bits: bv8): Props {
    Props(UnpackGbp(bits), bits & 0x10 != 0, UnpackIncb(bits))
  }

  /** Unpacking undoes packing, and only the default packs to zero. */
  lemma {:induction false} UnpackPack(p: Props)
    ensures Unpack(Pack(p)) == p
    ensures Pack(p) == 0 <==> p == DEFAULT
  {
  }

  /** The layout of the emitted byte: bits 0-3 break class, bit 4 pictographic, bits 5-6 conjunct class. */
  lemma {:induction false} PackLayout(p: Props)
    ensures Pack(p) & 0x0F == (match p.gbp
                               case Other => 0 case CR => 1 case LF => 2 case Control => 3 case Extend => 4
                               case ZWJ => 5 case RegionalIndicator => 6 case Prepend => 7 case SpacingMark => 8
                               case L => 9 case V => 10 case T => 11 case LV => 12 case LVT => 13)
    ensures Pack(p) & 0x10 != 0 <==> p.pict
    ensures Pack(p) & 0x60 == (match p.incb
                               case NoBreak => 0 case Linker => 0x20 case Consonant => 0x40 case ConjunctExtend => 0x60)
    ensures Pack(p) & 0x80 == 0
  {
  }

  /** Codes that no class has are read as `Other`. */
  lemma {:induction false} ReservedIsOther(bits: bv8)
    ensures Unpack(bits).gbp == Other <==> bits & 0x0F == 0 || bits & 0x0F >= 14
  {
  }

  /* ---------------------------------------------------------------- the sweep */

  /** What the three sources say about a code point. */
  function Sources(gbp: seq<Range<GBP>>, extp: seq<Range<bool>>, incb: seq<Range<InCB>>, cp: int): Props {
    Props(ValueAt(gbp, cp, Other), ValueAt(extp, cp, false), ValueAt(incb, cp, NoBreak))
  }

  /** `p` has the class, the flag and the conjunct class that some row gives `cp`, and otherwise the default. */
  ghost predicate Says(p: Props, gbp: seq<Range<GBP>>, extp: seq<Range<bool>>, incb: seq<Range<InCB>>, cp: int) {
    && (forall v :: v != Other ==> (p.gbp == v <==> Gives(gbp, cp, v)))
    && (p.pict <==> Gives(extp, cp, true))
    && (forall v :: v != NoBreak ==> (p.incb == v <==> Gives(incb, cp, v)))
  }

  lemma {:induction false} ValueIffGiven<V(!new)>(rs: seq<Range<V>>, cp: int, default: V, v: V)
    requires Consistent(rs) && v != default
    ensures ValueAt(rs, cp, default) == v <==> Gives(rs, cp, v)
  {
    ValueAtGives(rs, cp, default);
    if Gives(rs, cp, v) {
      var i :| 0 <= i < |rs| && Covers(rs[i], cp) && rs[i].value == v;
      ConsistentValue(rs, i, cp, default);
    }
  }

  lemma {:induction false} SourcesSay(gbp: seq<Range<GBP>>, extp: seq<Range<bool>>, incb: seq<Range<InCB>>, cp: int)
    requires Consistent(gbp) && Consistent(extp) && Consistent(incb)
    ensures Says(Sources(gbp, extp, incb, cp), gbp, extp, incb, cp)
  {
    forall v | v != Other ensures ValueAt(gbp, cp, Other) == v <==> Gives(gbp, cp, v) {
      ValueIffGiven(gbp, cp, Other, v);
    }
    ValueIffGiven(extp, cp, false, true);
    forall v | v != NoBreak ensures ValueAt(incb, cp, NoBreak) == v <==> Gives(incb, cp, v) {
      ValueIffGiven(incb, cp, NoBreak, v);
    }
  }

  /** Every range's first and one-past-last code points are among `points`. */
  ghost predicate CutBy<V>(rs: seq<Range<V>>, points: set<nat>) {
    forall i :: 0 <= i < |rs| ==> rs[i].start in points && rs[i].end + 1 in points
  }

  /** The first and one-past-last code points of every range. */
  method Boundaries<V>(rs: seq<Range<V>>) returns (points: set<nat>)
    ensures CutBy(rs, points)
  {
    points := {};
    for i := 0 to |rs|
      invariant CutBy(rs[..i], points)
    {
      assert rs[..i + 1] == rs[..i] + [rs[i]];
      points := points + {rs[i].start, rs[i].end + 1};
    }
    assert rs[..|rs|] == rs;
  }

  ghost predicate Rising(s: seq<nat>) {
    forall i, j :: 0 <= i < j < |s| ==> s[i] < s[j]
  }

  lemma {:induction false} LeastExists(points: set<nat>) returns (m: nat)
    requires points != {}
    ensures m in points && forall p :: p in points ==> m <= p
  {
    m :| m in points;
    if points != {m} {
      var rest := LeastExists(points - {m});
      forall p | p in points ensures (if rest < m then rest else m) <= p {
        if p != m { assert p in points - {m}; }
      }
      if rest < m { m := rest; }
    }
  }

  /** `sorted` on a set of points. */
  method SortedPoints(points: set<nat>) returns (s: seq<nat>)
    ensures Rising(s) && forall p :: p in points <==> p in s
  {
    s := [];
    var left := points;
    while left != {}
      invariant left <= points && Rising(s)
      invariant forall p :: p in points <==> p in s || p in left
      invariant forall i, p :: 0 <= i < |s| && p in left ==> s[i] < p
    {
      var _ := LeastExists(left);
      var m :| m in left && forall p :: p in left ==> m <= p;
      left, s := left - {m}, s + [m];
    }
  }

  /** Code points covered by the same ranges have the same value. */
  lemma {:induction false} SliceIsConstant<V>(rs: seq<Range<V>>, lo: int, cp: int, default: V)
    requires forall i :: 0 <= i < |rs| ==> (Covers(rs[i], lo) <==> Covers(rs[i], cp))
    ensures ValueAt(rs, lo, default) == ValueAt(rs, cp, default)
  {
    if rs != [] { SliceIsConstant(rs[1..], lo, cp, default); }
  }

  lemma {:induction false} SliceCovers<V>(rs: seq<Range<V>>, points: seq<nat>, n: nat, cp: int)
    requires Rising(points) && n + 1 < |points| && points[n] <= cp < points[n + 1]
    requires forall i :: 0 <= i < |rs| ==> rs[i].start in points && rs[i].end + 1 in points
    ensures forall i :: 0 <= i < |rs| ==> (Covers(rs[i], points[n]) <==> Covers(rs[i], cp))
  {
    forall i | 0 <= i < |rs| ensures Covers(rs[i], points[n]) <==> Covers(rs[i], cp) {
      var a :| 0 <= a < |points| && points[a] == rs[i].start;
      var b :| 0 <= b < |points| && points[b] == rs[i].end + 1;
      assert a <= n || a >= n + 1;
      assert b <= n || b >= n + 1;
    }
  }

  /** Every source boundary is one of the points. */
  ghost predicate Cuts(gbp: seq<Range<GBP>>, extp: seq<Range<bool>>, incb: seq<Range<InCB>>, points: seq<nat>) {
    && Rising(points)
    && (forall i :: 0 <= i < |gbp| ==> gbp[i].start in points && gbp[i].end + 1 in points)
    && (forall i :: 0 <= i < |extp| ==> extp[i].start in points && extp[i].end + 1 in points)
    && (forall i :: 0 <= i < |incb| ==> incb[i].start in points && incb[i].end + 1 in points)
  }

  /** Between two neighbouring boundaries every source is constant. */
  lemma {:induction false} SliceSources(gbp: seq<Range<GBP>>, extp: seq<Range<bool>>, incb: seq<Range<InCB>>,
                     points: seq<nat>, n: nat, cp: int)
    requires Cuts(gbp, extp, incb, points) && n + 1 < |points| && points[n] <= cp < points[n + 1]
    ensures Sources(gbp, extp, incb, cp) == Sources(gbp, extp, incb, points[n])
  {
    SliceCovers(gbp, points, n, cp);
    SliceCovers(extp, points, n, cp);
    SliceCovers(incb, points, n, cp);
    SliceIsConstant(gbp, points[n], cp, Other);
    SliceIsConstant(extp, points[n], cp, false);
    SliceIsConstant(incb, points[n], cp, NoBreak);
  }

  lemma {:induction false} OutsideValue<V>(rs: seq<Range<V>>, points: seq<nat>, cp: int, default: V)
    requires Rising(points) && (points == [] || cp < points[0] || points[|points| - 1] <= cp)
    requires forall i :: 0 <= i < |rs| ==> rs[i].start in points && rs[i].end + 1 in points
    ensures ValueAt(rs, cp, default) == default
  {
    forall i | 0 <= i < |rs| ensures !Covers(rs[i], cp) {
      var a :| 0 <= a < |points| && points[a] == rs[i].start;
      var b :| 0 <= b < |points| && points[b] == rs[i].end + 1;
    }
    ValueAtGives(rs, cp, default);
  }

  /** Outside the outermost boundaries every source is silent. */
  lemma {:induction false} OutsideIsDefault(gbp: seq<Range<GBP>>, extp: seq<Range<bool>>, incb: seq<Range<InCB>>,
                                            points: seq<nat>, cp: int)
    requires Cuts(gbp, extp, incb, points) && (points == [] || cp < points[0] || points[|points| - 1] <= cp)
    ensures Sources(gbp, extp, incb, cp) == DEFAULT
  {
    OutsideValue(gbp, points, cp, Other);
    OutsideValue(extp, points, cp, false);
    OutsideValue(incb, points, cp, NoBreak);
  }

  /** `merged` says what the sources say about every code point below `limit`, and nothing else. */
  ghost predicate SweptTo(merged: seq<Range<Props>>, gbp: seq<Range<GBP>>, extp: seq<Range<bool>>,
                          incb: seq<Range<InCB>>, limit: int) {
    && Table(merged) && Maximal(merged)
    && (forall i :: 0 <= i < |merged| ==> merged[i].value != DEFAULT && merged[i].end < limit)
    && forall cp :: cp < limit ==> ValueAt(merged, cp, DEFAULT) == Sources(gbp, extp, incb, cp)
  }

  lemma {:induction false} ValueAtAppend<V>(rs: seq<Range<V>>, r: Range<V>, cp: int, default: V)
    requires Table(rs + [r])
    ensures ValueAt(rs + [r], cp, default) == if Covers(r, cp) then r.value else ValueAt(rs, cp, default)
  {
    TableIsConsistent(rs + [r]);
    ValueAtGives(rs, cp, default);
    ValueAtGives(rs + [r], cp, default);
    if Covers(r, cp) {
      ConsistentValue(rs + [r], |rs|, cp, default);
    } else if Gives(rs, cp, ValueAt(rs, cp, default)) {
      var i :| 0 <= i < |rs| && Covers(rs[i], cp) && rs[i].value == ValueAt(rs, cp, default);
      assert (rs + [r])[i] == rs[i];
      ConsistentValue(rs + [r], i, cp, default);
    } else {
      GivesAppend(rs, r, cp, ValueAt(rs + [r], cp, default));
    }
  }

  /** One slice of the sweep: skip a default slice, widen an equal neighbour, or append. */
  function SweepSlice(merged: seq<Range<Props>>, s: nat, e: nat, p: Props): seq<Range<Props>> {
    if p == DEFAULT then merged
    else if merged != [] && merged[|merged| - 1].end + 1 == s && merged[|merged| - 1].value == p then
      merged[|merged| - 1 := Range(merged[|merged| - 1].start, e, p)]
    else merged + [Range(s, e, p)]
  }

  lemma {:induction false} SweepKeeps(merged: seq<Range<Props>>, gbp: seq<Range<GBP>>, extp: seq<Range<bool>>,
                                      incb: seq<Range<InCB>>, s: nat, e: nat)
    requires SweptTo(merged, gbp, extp, incb, s) && s <= e
    requires forall cp :: s <= cp <= e ==> Sources(gbp, extp, incb, cp) == Sources(gbp, extp, incb, s)
    ensures SweptTo(SweepSlice(merged, s, e, Sources(gbp, extp, incb, s)), gbp, extp, incb, e + 1)
  {
    var p := Sources(gbp, extp, incb, s);
    var out := SweepSlice(merged, s, e, p);
    if p != DEFAULT && merged != [] && merged[|merged| - 1].end + 1 == s && merged[|merged| - 1].value == p {
      var init, last, wide := merged[..|merged| - 1], merged[|merged| - 1], Range(merged[|merged| - 1].start, e, p);
      assert merged == init + [last] && out == init + [wide];
      WidenKeepsTable(init, last, wide);
      forall cp: int | cp <= e ensures ValueAt(out, cp, DEFAULT) == Sources(gbp, extp, incb, cp) {
        ValueAtAppend(init, wide, cp, DEFAULT);
        ValueAtAppend(init, last, cp, DEFAULT);
        if cp >= s { assert Covers(wide, cp); }
      }
    } else if p != DEFAULT {
      AppendKeepsTable(merged, Range(s, e, p));
      forall cp: int | cp <= e ensures ValueAt(out, cp, DEFAULT) == Sources(gbp, extp, incb, cp) {
        ValueAtAppend(merged, Range(s, e, p), cp, DEFAULT);
      }
    } else {
      forall cp | s <= cp <= e ensures ValueAt(out, cp, DEFAULT) == DEFAULT {
        ValueAtGives(merged, cp, DEFAULT);
      }
    }
  }

  /** The sorted union of the three sources' boundaries. */
  method AllBoundaries(gbp: seq<Range<GBP>>, extp: seq<Range<bool>>, incb: seq<Range<InCB>>) returns (points: seq<nat>)
    ensures Cuts(gbp, extp, incb, points)
  {
    var a := Boundaries(gbp);
    var b := Boundaries(extp);
    var c := Boundaries(incb);
    points := SortedPoints(a + b + c);
  }

  /** The boundary sweep: the maximal table, without default entries, of what the three sources say together. */
  method Sweep(gbp: seq<Range<GBP>>, extp: seq<Range<bool>>, incb: seq<Range<InCB>>) returns (merged: seq<Range<Props>>)
    requires Table(gbp) && Table(extp) && Table(incb)
    ensures Table(merged) && Maximal(merged)
    ensures forall i :: 0 <= i < |merged| ==> merged[i].value != DEFAULT
    ensures forall cp: int :: ValueAt(merged, cp, DEFAULT) == Sources(gbp, extp, incb, cp)
    ensures forall cp: int :: Says(ValueAt(merged, cp, DEFAULT), gbp, extp, incb, cp)
  {
    forall cp: int ensures Says(Sources(gbp, extp, incb, cp), gbp, extp, incb, cp) {
      TableIsConsistent(gbp);
      TableIsConsistent(extp);
      TableIsConsistent(incb);
      SourcesSay(gbp, extp, incb, cp);
    }
    var points := AllBoundaries(gbp, extp, incb);
    merged := [];
    if |points| == 0 {
      forall cp: int ensures ValueAt(merged, cp, DEFAULT) == Sources(gbp, extp, incb, cp) {
        OutsideIsDefault(gbp, extp, incb, points, cp);
      }
      return;
    }
    forall cp: int | cp < points[0] ensures ValueAt(merged, cp, DEFAULT) == Sources(gbp, extp, incb, cp) {
      OutsideIsDefault(gbp, extp, incb, points, cp);
    }
    for i := 0 to |points| - 1
      invariant SweptTo(merged, gbp, extp, incb, points[i])
    {
      var s, e := points[i], points[i + 1] - 1;
      var g := Lookup(gbp, s, Other);
      var p := Lookup(extp, s, false);
      var ic := Lookup(incb, s, NoBreak);
      forall cp | s <= cp <= e ensures Sources(gbp, extp, incb, cp) == Sources(gbp, extp, incb, s) {
        SliceSources(gbp, extp, incb, points, i, cp);
      }
      SweepKeeps(merged, gbp, extp, incb, s, e);
      if g == Other && !p && ic == NoBreak {
        continue;
      }
      if |merged| > 0 && merged[|merged| - 1].end + 1 == s && merged[|merged| - 1].value == Props(g, p, ic) {
        merged := merged[|merged| - 1 := Range(merged[|merged| - 1].start, e, Props(g, p, ic))];
      } else {
        merged := merged + [Range(s, e, Props(g, p, ic))];
      }
    }
    forall cp: int ensures ValueAt(merged, cp, DEFAULT) == Sources(gbp, extp, incb, cp) {
      if cp >= points[|points| - 1] {
        OutsideIsDefault(gbp, extp, incb, points, cp);
        ValueAtGives(merged, cp, DEFAULT);
      }
    }
  }

  /* ---------------------------------------------------------------- emission and lookup */

  function PackRange(r: Range<Props>): Range<bv8> {
    Range(r.start, r.end, Pack(r.value))
  }

  function PackAll(rs: seq<Range<Props>>): (out: seq<Range<bv8>>)
    ensures |out| == |rs| && forall i :: 0 <= i < |rs| ==> out[i] == PackRange(rs[i])
  {
    seq(|rs|, i requires 0 <= i < |rs| => PackRange(rs[i]))
  }

  lemma {:induction false} PackedValue(rs: seq<Range<Props>>, cp: int)
    ensures Unpack(ValueAt(PackAll(rs), cp, 0)) == ValueAt(rs, cp, DEFAULT)
  {
    if rs == [] {
      UnpackPack(DEFAULT);
    } else {
      UnpackPack(rs[0].value);
      assert PackAll(rs)[1..] == PackAll(rs[1..]);
      PackedValue(rs[1..], cp);
    }
  }

  lemma {:induction false} PackedIsCanonical(rs: seq<Range<Props>>)
    requires Table(rs) && Maximal(rs) && forall i :: 0 <= i < |rs| ==> rs[i].value != DEFAULT
    ensures Table(PackAll(rs)) && Maximal(PackAll(rs))
    ensures forall i :: 0 <= i < |rs| ==> PackAll(rs)[i].value != 0
  {
    forall i | 0 <= i < |rs| ensures Unpack(PackAll(rs)[i].value) == rs[i].value && PackAll(rs)[i].value != 0 {
      UnpackPack(rs[i].value);
    }
  }

  /** The emitted `cluster_props`: one binary search, then unpack. */
  method ClusterProps(table: seq<Range<bv8>>, cp: nat) returns (p: Props)
    requires Table(table)
    ensures p == Unpack(ValueAt(table, cp, 0))
  {
    var found := BinarySearch(table, cp);
    ValueAtGives(table, cp, 0);
    TableIsConsistent(table);
    if found.Some? {
      ConsistentValue(table, found.value, cp, 0);
      var bits := table[found.value].value;
      return Props(UnpackGbp(bits), bits & 0x10 != 0, UnpackIncb(bits));
    }
    UnpackPack(DEFAULT);
    return DEFAULT;
  }

  /** The emitted table answers, at every code point, exactly what the three raw sources say. */
  ghost predicate Compiled(table: seq<Range<bv8>>, gbp: seq<Range<GBP>>, extp: seq<Range<bool>>,
                           incb: seq<Range<InCB>>) {
    && Table(table) && Maximal(table)
    && (forall i :: 0 <= i < |table| ==> table[i].value != 0)
    && forall cp: int :: Unpack(ValueAt(table, cp, 0)) == Sources(gbp, extp, incb, cp)
  }

  /**
   The whole pass on the rows of the three source files.  `rankG` and `rankI` stand for the
   order of the value names, which only breaks ties between equal spans.
   */
  method EmitUnicodeData(gbpRaw: seq<Range<GBP>>, extpRaw: seq<Range<bool>>, incbRaw: seq<Range<InCB>>,
                         rankG: GBP -> int, rankI: InCB -> int)
    returns (table: seq<Range<bv8>>)
    requires WellFormed(gbpRaw) && WellFormed(extpRaw) && WellFormed(incbRaw)
    requires Consistent(gbpRaw) && Consistent(extpRaw) && Consistent(incbRaw)
    ensures Compiled(table, gbpRaw, extpRaw, incbRaw)
    ensures forall cp: int :: Says(Unpack(ValueAt(table, cp, 0)), gbpRaw, extpRaw, incbRaw, cp)
  {
    forall cp: int ensures Says(Sources(gbpRaw, extpRaw, incbRaw, cp), gbpRaw, extpRaw, incbRaw, cp) {
      SourcesSay(gbpRaw, extpRaw, incbRaw, cp);
    }
    var gbp := Coalesce(gbpRaw, rankG);
    var extp := Coalesce(extpRaw, yes => if yes then 1 else 0);
    var incb := Coalesce(incbRaw, rankI);
    var merged := Sweep(gbp, extp, incb);
    table := PackAll(merged);
    PackedIsCanonical(merged);
    TableIsConsistent(gbp);
    TableIsConsistent(extp);
    TableIsConsistent(incb);
    forall cp: int ensures Unpack(ValueAt(table, cp, 0)) == Sources(gbpRaw, extpRaw, incbRaw, cp) {
      PackedValue(merged, cp);
      SameMeaningSameValue(gbp, gbpRaw, cp, Other);
      SameMeaningSameValue(extp, extpRaw, cp, false);
      SameMeaningSameValue(incb, incbRaw, cp, NoBreak);
    }
  }

  /** The emitted `has_emoji_presentation` on the coalesced spans answers membership in the raw ones. */
  method HasEmojiPresentation(raw: seq<Range<bool>>, cp: nat) returns (yes: bool)
    requires WellFormed(raw) && forall i :: 0 <= i < |raw| ==> raw[i].value
    ensures yes <==> exists i :: 0 <= i < |raw| && Covers(raw[i], cp)
  {
    var table := Coalesce(raw, v => if v then 1 else 0);
    var found := BinarySearch(table, cp);
    assert Gives(table, cp, true) <==> Gives(raw, cp, true);
    assert Gives(table, cp, false) <==> Gives(raw, cp, false);
    if found.Some? {
      Given(table, found.value, cp);
    }
    yes := found.Some?;
  }
}

/** Range tables over code points: what a table means, coalescing, and binary search. */
module RangeTables {
  import opened Wrappers

  datatype Range<V> = Range(start: nat, end: nat, value: V)

  predicate Covers<V>(r: Range<V>, cp: int) {
    r.start <= cp <= r.end
  }

  /** Some range of `rs` gives `cp` the value `v`. */
  ghost predicate Gives<V>(rs: seq<Range<V>>, cp: int, v: V) {
    exists i :: 0 <= i < |rs| && Covers(rs[i], cp) && rs[i].value == v
  }

  ghost predicate WellFormed<V>(rs: seq<Range<V>>) {
    forall i :: 0 <= i < |rs| ==> rs[i].start <= rs[i].end
  }

  /** A code point is given at most one value. */
  ghost predicate Consistent<V>(rs: seq<Range<V>>) {
    forall i, j, cp :: 0 <= i < |rs| && 0 <= j < |rs| && Covers(rs[i], cp) && Covers(rs[j], cp) ==>
      rs[i].value == rs[j].value
  }

  /** The value of `cp`: that of the first range covering it, else `default`. */
  function ValueAt<V>(rs: seq<Range<V>>, cp: int, default: V): V {
    if rs == [] then default
    else if Covers(rs[0], cp) then rs[0].value
    else ValueAt(rs[1..], cp, default)
  }

  /** Sorted, non-empty, disjoint ranges. */
  ghost predicate Table<V>(rs: seq<Range<V>>) {
    WellFormed(rs) && forall i, j :: 0 <= i < j < |rs| ==> rs[i].end < rs[j].start
  }

  /** No two neighbouring ranges could be one. */
  ghost predicate Maximal<V>(rs: seq<Range<V>>) {
    forall i, j :: 0 <= i < j < |rs| && rs[i].end + 1 == rs[j].start ==> rs[i].value != rs[j].value
  }

  ghost predicate SameMeaning<V(!new)>(a: seq<Range<V>>, b: seq<Range<V>>) {
    forall cp: int, v: V :: Gives(a, cp, v) <==> Gives(b, cp, v)
  }

  /* ---------------------------------------------------------------- meaning */

  /** `ValueAt` is the value given, or the default when none is. */
  lemma {:induction false} ValueAtGives<V>(rs: seq<Range<V>>, cp: int, default: V)
    ensures Gives(rs, cp, ValueAt(rs, cp, default))
            || (ValueAt(rs, cp, default) == default && forall i :: 0 <= i < |rs| ==> !Covers(rs[i], cp))
  {
    if rs != [] && !Covers(rs[0], cp) {
      ValueAtGives(rs[1..], cp, default);
      if Gives(rs[1..], cp, ValueAt(rs[1..], cp, default)) {
        var i :| 0 <= i < |rs[1..]| && Covers(rs[1..][i], cp) && rs[1..][i].value == ValueAt(rs[1..], cp, default);
        assert Covers(rs[i + 1], cp) && rs[i + 1].value == ValueAt(rs, cp, default);
      } else {
        forall i | 0 <= i < |rs| ensures !Covers(rs[i], cp) {
          if i > 0 { assert !Covers(rs[1..][i - 1], cp); }
        }
      }
    }
  }

  /** In a consistent table any covering range tells the value. */
  lemma {:induction false} ConsistentValue<V>(rs: seq<Range<V>>, i: nat, cp: int, default: V)
    requires Consistent(rs) && i < |rs| && Covers(rs[i], cp)
    ensures ValueAt(rs, cp, default) == rs[i].value
  {
    ValueAtGives(rs, cp, default);
  }

  lemma {:induction false} TableIsConsistent<V>(rs: seq<Range<V>>)
    requires Table(rs)
    ensures Consistent(rs)
  {
    forall i, j, cp | 0 <= i < |rs| && 0 <= j < |rs| && Covers(rs[i], cp) && Covers(rs[j], cp)
      ensures rs[i].value == rs[j].value
    {
    }
  }

  /** Consistent tables of the same meaning answer alike. */
  lemma {:induction false} SameMeaningSameValue<V(!new)>(a: seq<Range<V>>, b: seq<Range<V>>, cp: int, default: V)
    requires SameMeaning(a, b) && Consistent(a) && Consistent(b)
    ensures ValueAt(a, cp, default) == ValueAt(b, cp, default)
  {
    ValueAtGives(a, cp, default);
    ValueAtGives(b, cp, default);
    if Gives(a, cp, ValueAt(a, cp, default)) {
      assert Gives(b, cp, ValueAt(a, cp, default));
      var i :| 0 <= i < |b| && Covers(b[i], cp) && b[i].value == ValueAt(a, cp, default);
      ConsistentValue(b, i, cp, default);
    } else {
      assert Gives(a, cp, ValueAt(b, cp, default)) <==> Gives(b, cp, ValueAt(b, cp, default));
    }
  }

  lemma {:induction false} GivesAppend<V>(rs: seq<Range<V>>, r: Range<V>, cp: int, v: V)
    ensures Gives(rs + [r], cp, v) <==> Gives(rs, cp, v) || (Covers(r, cp) && r.value == v)
  {
    if Gives(rs, cp, v) {
      var i :| 0 <= i < |rs| && Covers(rs[i], cp) && rs[i].value == v;
      assert (rs + [r])[i] == rs[i];
    }
    if Covers(r, cp) && r.value == v { assert (rs + [r])[|rs|] == r; }
  }

  /* ---------------------------------------------------------------- canonical form */

  /** A range of a maximal table is one whole run of its value: the code points just outside it differ. */
  lemma {:induction false} RangeIsWholeRun<V(!new)>(a: seq<Range<V>>, i: nat, cp: int)
    requires Table(a) && Maximal(a) && i < |a| && (cp == a[i].start - 1 || cp == a[i].end + 1)
    ensures !Gives(a, cp, a[i].value)
  {
    forall j | 0 <= j < |a| && Covers(a[j], cp) ensures a[j].value != a[i].value {
      assert i < j ==> a[i].end < a[j].start;
      assert j < i ==> a[j].end < a[i].start;
    }
  }

  lemma {:induction false} Given<V>(a: seq<Range<V>>, i: nat, cp: int)
    requires i < |a| && Covers(a[i], cp)
    ensures Gives(a, cp, a[i].value)
  {
  }

  /** Ranges of two maximal tables of one meaning, one covering the other's start, are the same range. */
  lemma {:induction false} SameSpan<V(!new)>(a: seq<Range<V>>, b: seq<Range<V>>, i: nat, j: nat)
    requires Table(a) && Maximal(a) && Table(b) && Maximal(b) && SameMeaning(a, b)
    requires i < |a| && j < |b| && Covers(b[j], a[i].start)
    ensures a[i] == b[j]
  {
    var x, y := a[i], b[j];
    Given(a, i, x.start);
    assert Gives(b, x.start, x.value);
    TableIsConsistent(b);
    assert x.value == y.value;
    RangeIsWholeRun(a, i, x.start - 1);
    RangeIsWholeRun(a, i, x.end + 1);
    RangeIsWholeRun(b, j, y.end + 1);
    assert !Gives(b, x.start - 1, x.value) && !Gives(b, x.end + 1, x.value) && !Gives(a, y.end + 1, x.value);
    if y.start < x.start { Given(b, j, x.start - 1); }
    if y.end < x.end { Given(a, i, y.end + 1); }
    if x.end < y.end { Given(b, j, x.end + 1); }
  }

  /** The maximal table of a meaning is unique: every range of one is a range of the other. */
  lemma {:induction false} MaximalTableIsUnique<V(!new)>(a: seq<Range<V>>, b: seq<Range<V>>, i: nat) returns (j: nat)
    requires Table(a) && Maximal(a) && Table(b) && Maximal(b) && SameMeaning(a, b) && i < |a|
    ensures j < |b| && b[j] == a[i]
  {
    Given(a, i, a[i].start);
    assert Gives(b, a[i].start, a[i].value);
    j :| 0 <= j < |b| && Covers(b[j], a[i].start) && b[j].value == a[i].value;
    SameSpan(a, b, i, j);
  }

  /* ---------------------------------------------------------------- sorting */

  /** The tuple order of `(start, end, value)`, values compared by `rank`. */
  predicate Before<V>(a: Range<V>, b: Range<V>, rank: V -> int) {
    a.start < b.start
    || (a.start == b.start && (a.end < b.end || (a.end == b.end && rank(a.value) <= rank(b.value))))
  }

  function Insert<V>(rs: seq<Range<V>>, r: Range<V>, rank: V -> int): (out: seq<Range<V>>)
    ensures multiset(out) == multiset(rs) + multiset{r}
  {
    if rs == [] || Before(r, rs[0], rank) then
      assert [r] + rs == [r] + rs;
      [r] + rs
    else
      assert rs == [rs[0]] + rs[1..];
      [rs[0]] + Insert(rs[1..], r, rank)
  }

  function Sorted<V>(rs: seq<Range<V>>, rank: V -> int): (out: seq<Range<V>>)
    ensures multiset(out) == multiset(rs)
  {
    if rs == [] then []
    else
      assert rs == [rs[0]] + rs[1..];
      Insert(Sorted(rs[1..], rank), rs[0], rank)
  }

  ghost predicate StartsRise<V>(rs: seq<Range<V>>) {
    forall i, j :: 0 <= i < j < |rs| ==> rs[i].start <= rs[j].start
  }

  lemma {:induction false} InsertStartsRise<V>(rs: seq<Range<V>>, r: Range<V>, rank: V -> int)
    requires StartsRise(rs)
    ensures StartsRise(Insert(rs, r, rank))
    ensures rs == [] || Before(r, rs[0], rank) || Insert(rs, r, rank)[0] == rs[0]
  {
    if rs != [] && !Before(r, rs[0], rank) {
      InsertStartsRise(rs[1..], r, rank);
      var rest := Insert(rs[1..], r, rank);
      forall j | 0 <= j < |rest| ensures rs[0].start <= rest[j].start {
        InsertHas(rs[1..], r, rank, j);
      }
    }
  }

  lemma {:induction false} InsertHas<V>(rs: seq<Range<V>>, r: Range<V>, rank: V -> int, j: nat)
    requires j < |Insert(rs, r, rank)|
    ensures Insert(rs, r, rank)[j] in rs || Insert(rs, r, rank)[j] == r
  {
    assert Insert(rs, r, rank)[j] in multiset(Insert(rs, r, rank));
  }

  lemma {:induction false} SortedStartsRise<V>(rs: seq<Range<V>>, rank: V -> int)
    ensures StartsRise(Sorted(rs, rank))
  {
    if rs != [] {
      SortedStartsRise(rs[1..], rank);
      InsertStartsRise(Sorted(rs[1..], rank), rs[0], rank);
    }
  }

  lemma {:induction false} SortedGives<V>(rs: seq<Range<V>>, rank: V -> int, cp: int, v: V)
    ensures Gives(Sorted(rs, rank), cp, v) <==> Gives(rs, cp, v)
  {
    var s := Sorted(rs, rank);
    if Gives(s, cp, v) {
      var i :| 0 <= i < |s| && Covers(s[i], cp) && s[i].value == v;
      assert s[i] in multiset(s) && s[i] in rs;
    }
    if Gives(rs, cp, v) {
      var i :| 0 <= i < |rs| && Covers(rs[i], cp) && rs[i].value == v;
      assert rs[i] in multiset(rs) && rs[i] in multiset(s) && rs[i] in s;
    }
  }

  lemma {:induction false} SortedKeepsShape<V>(rs: seq<Range<V>>, rank: V -> int)
    requires WellFormed(rs) && Consistent(rs)
    ensures WellFormed(Sorted(rs, rank)) && Consistent(Sorted(rs, rank))
  {
    var s := Sorted(rs, rank);
    forall i | 0 <= i < |s| ensures s[i].start <= s[i].end {
      SortedHas(rs, rank, i);
    }
    forall i, j, cp: int | 0 <= i < |s| && 0 <= j < |s| && Covers(s[i], cp) && Covers(s[j], cp)
      ensures s[i].value == s[j].value
    {
      SortedHas(rs, rank, i);
      SortedHas(rs, rank, j);
    }
  }

  lemma {:induction false} SortedHas<V>(rs: seq<Range<V>>, rank: V -> int, i: nat)
    requires i < |Sorted(rs, rank)|
    ensures Sorted(rs, rank)[i] in rs
  {
    assert Sorted(rs, rank)[i] in multiset(Sorted(rs, rank));
    assert Sorted(rs, rank)[i] in multiset(rs);
  }

  /* ---------------------------------------------------------------- coalescing */

  lemma {:induction false} MeaningAppend<V(!new)>(out: seq<Range<V>>, src: seq<Range<V>>, r: Range<V>)
    requires SameMeaning(out, src)
    ensures SameMeaning(out + [r], src + [r])
  {
    forall cp: int, v: V ensures Gives(out + [r], cp, v) <==> Gives(src + [r], cp, v) {
      GivesAppend(out, r, cp, v);
      GivesAppend(src, r, cp, v);
    }
  }

  /** The union of a range and one that starts in it or just behind it. */
  function Widened<V>(last: Range<V>, r: Range<V>): Range<V> {
    Range(last.start, if last.end > r.end then last.end else r.end, last.value)
  }

  /** Widening the last range to the union with a touching range of its value. */
  lemma {:induction false} MeaningWiden<V(!new)>(init: seq<Range<V>>, last: Range<V>, src: seq<Range<V>>, r: Range<V>)
    requires SameMeaning(init + [last], src)
    requires last.value == r.value && last.start <= r.start <= last.end + 1
    ensures SameMeaning(init + [Widened(last, r)], src + [r])
  {
    forall cp: int, v: V ensures Gives(init + [Widened(last, r)], cp, v) <==> Gives(src + [r], cp, v) {
      GivesAppend(init, Widened(last, r), cp, v);
      GivesAppend(init, last, cp, v);
      GivesAppend(src, r, cp, v);
    }
  }

  lemma {:induction false} AppendKeepsTable<V>(out: seq<Range<V>>, r: Range<V>)
    requires Table(out) && Maximal(out) && r.start <= r.end
    requires out != [] ==> var last := out[|out| - 1];
                           last.end < r.start && (last.end + 1 == r.start ==> last.value != r.value)
    ensures Table(out + [r]) && Maximal(out + [r])
  {
    forall i | 0 <= i < |out| ensures out[i].end <= out[|out| - 1].end {
    }
    forall i | 0 <= i < |out| && out[i].end + 1 == r.start ensures i == |out| - 1 {
    }
  }

  lemma {:induction false} WidenKeepsTable<V>(init: seq<Range<V>>, last: Range<V>, wide: Range<V>)
    requires Table(init + [last]) && Maximal(init + [last])
    requires wide.start == last.start && wide.value == last.value && wide.end >= last.end
    ensures Table(init + [wide]) && Maximal(init + [wide])
  {
    var s := init + [last];
    assert forall i :: 0 <= i < |init| ==> s[i] == init[i];
    assert s[|init|] == last;
  }

  predicate Touches<V(==)>(out: seq<Range<V>>, r: Range<V>) {
    |out| > 0 && out[|out| - 1].value == r.value && out[|out| - 1].end + 1 >= r.start
  }

  /** One step of coalescing: widen the last range when the next one touches it with the same value, else append. */
  function Merged<V(==)>(out: seq<Range<V>>, r: Range<V>): seq<Range<V>> {
    if Touches(out, r) then out[|out| - 1 := Widened(out[|out| - 1], r)] else out + [r]
  }

  /** A step keeps what every code point is given, whatever the ranges are. */
  lemma {:induction false} MergedMeaning<V(!new)>(out: seq<Range<V>>, src: seq<Range<V>>, r: Range<V>)
    requires SameMeaning(out, src) && (|out| > 0 ==> out[|out| - 1].start <= r.start)
    ensures SameMeaning(Merged(out, r), src + [r])
  {
    if Touches(out, r) {
      var init, last := out[..|out| - 1], out[|out| - 1];
      assert out == init + [last] && Merged(out, r) == init + [Widened(last, r)];
      MeaningWiden(init, last, src, r);
    } else {
      MeaningAppend(out, src, r);
    }
  }

  /** On ranges that agree with each other a step keeps the maximal table. */
  lemma {:induction false} MergedTable<V(!new)>(out: seq<Range<V>>, sorted: seq<Range<V>>, i: nat)
    requires i < |sorted| && WellFormed(sorted) && Consistent(sorted) && StartsRise(sorted)
    requires Table(out) && Maximal(out) && SameMeaning(out, sorted[..i])
    requires |out| > 0 ==> i > 0 && out[|out| - 1].start <= sorted[i - 1].start
    ensures Table(Merged(out, sorted[i])) && Maximal(Merged(out, sorted[i]))
  {
    var r := sorted[i];
    if Touches(out, r) {
      var init, last := out[..|out| - 1], out[|out| - 1];
      assert out == init + [last] && Merged(out, r) == init + [Widened(last, r)];
      WidenKeepsTable(init, last, Widened(last, r));
    } else {
      if |out| > 0 { LastEndsBefore(out, sorted, i); }
      AppendKeepsTable(out, r);
    }
  }

  /**
   Merge adjacent and overlapping ranges of the same value.  What every code point is given never
   changes; ranges that agree with each other become the maximal table of their meaning.
   */
  method Coalesce<V(==, !new)>(ranges: seq<Range<V>>, rank: V -> int) returns (out: seq<Range<V>>)
    ensures SameMeaning(out, ranges)
    ensures WellFormed(ranges) && Consistent(ranges) ==> Table(out) && Maximal(out)
  {
    var sorted := Sorted(ranges, rank);
    ghost var agree := WellFormed(ranges) && Consistent(ranges);
    SortedStartsRise(ranges, rank);
    if agree { SortedKeepsShape(ranges, rank); }
    out := [];
    for i := 0 to |sorted|
      invariant SameMeaning(out, sorted[..i])
      invariant agree ==> Table(out) && Maximal(out)
      invariant |out| > 0 ==> i > 0 && out[|out| - 1].start <= sorted[i - 1].start
    {
      var r := sorted[i];
      assert sorted[..i + 1] == sorted[..i] + [r];
      assert i > 0 ==> sorted[i - 1].start <= r.start;
      MergedMeaning(out, sorted[..i], r);
      if agree { MergedTable(out, sorted, i); }
      ghost var was := out;
      if |out| > 0 && out[|out| - 1].value == r.value && out[|out| - 1].end + 1 >= r.start {
        var last := out[|out| - 1];
        out := out[|out| - 1 := Range(last.start, if last.end > r.end then last.end else r.end, r.value)];
      } else {
        out := out + [r];
      }
      assert out == Merged(was, r);
    }
    assert sorted[..|sorted|] == sorted;
    forall cp: int, v: V ensures Gives(out, cp, v) <==> Gives(ranges, cp, v) {
      SortedGives(ranges, rank, cp, v);
    }
  }

  /** A range that may not be merged starts after everything merged so far. */
  lemma {:induction false} LastEndsBefore<V(!new)>(out: seq<Range<V>>, sorted: seq<Range<V>>, i: nat)
    requires 0 < i < |sorted| && WellFormed(sorted) && Consistent(sorted) && StartsRise(sorted)
    requires |out| > 0 && SameMeaning(out, sorted[..i]) && out[|out| - 1].start <= sorted[i - 1].start
    requires out[|out| - 1].value != sorted[i].value || out[|out| - 1].end + 1 < sorted[i].start
    ensures out[|out| - 1].end < sorted[i].start
  {
    var last, r := out[|out| - 1], sorted[i];
    assert sorted[i - 1].start <= r.start;
    if last.end >= r.start {
      Given(out, |out| - 1, r.start);
      assert Gives(sorted[..i], r.start, last.value);
      var k :| 0 <= k < i && Covers(sorted[..i][k], r.start) && sorted[..i][k].value == last.value;
      assert Covers(sorted[k], r.start) && Covers(sorted[i], r.start);
    }
  }

  /* ---------------------------------------------------------------- binary search */

  /** The generator's own lookup. */
  method Lookup<V>(ranges: seq<Range<V>>, cp: nat, default: V) returns (v: V)
    requires Table(ranges)
    ensures v == ValueAt(ranges, cp, default)
  {
    TableIsConsistent(ranges);
    var lo, hi := 0, |ranges|;
    while lo < hi
      invariant 0 <= lo <= hi <= |ranges|
      invariant forall i :: 0 <= i < lo ==> ranges[i].end < cp
      invariant forall i :: hi <= i < |ranges| ==> cp < ranges[i].start
    {
      var mid := (lo + hi) / 2;
      if cp < ranges[mid].start {
        hi := mid;
      } else if cp > ranges[mid].end {
        lo := mid + 1;
      } else {
        ConsistentValue(ranges, mid, cp, default);
        return ranges[mid].value;
      }
    }
    ValueAtGives(ranges, cp, default);
    return default;
  }

  /** `binary_search_by` with the range comparison of the emitted tables. */
  method BinarySearch<V>(ranges: seq<Range<V>>, cp: nat) returns (found: Option<nat>)
    requires Table(ranges)
    ensures found.Some? ==> found.value < |ranges| && Covers(ranges[found.value], cp)
    ensures found.None? ==> forall i :: 0 <= i < |ranges| ==> !Covers(ranges[i], cp)
  {
    var lo, size := 0, |ranges|;
    while size > 0
      invariant 0 <= lo <= lo + size <= |ranges|
      invariant forall i :: 0 <= i < lo ==> ranges[i].end < cp
      invariant forall i :: lo + size <= i < |ranges| ==> cp < ranges[i].start
    {
      var half := size / 2;
      var mid := lo + half;
      if cp < ranges[mid].start {
        size := half;
      } else if cp > ranges[mid].end {
        lo, size := mid + 1, size - half - 1;
      } else {
        return Some(mid);
      }
    }
    return None;
  }
}

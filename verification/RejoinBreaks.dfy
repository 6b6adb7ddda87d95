/**
 Which breaks a second pass keeps. It decides about the same breaks as the first pass
 kept, on lines that have lost their trailing white space. Only one kind of line can change its
 mind: a list marker with nothing but white space behind it, which is a bullet before trimming and
 plain text after it.
 */
module RejoinBreaks {
  import opened Wrappers
  import opened Text
  import opened Rejoin
  import opened RejoinLines
  import opened RejoinProofs

  /** No list marker is an upper-case letter, as in Unicode. */
  ghost predicate PlainMarkers(upper: Upper) {
    forall c: char :: IsMarker(c) || IsDigit(c) ==> !upper(c)
  }

  /** A list marker followed by white space only: trimming takes the bullet away. */
  predicate BareBullet(l: string) {
    StartsWithBullet(TrimStart(l)) && !StartsWithBullet(Trim(l))
  }

  /* ---------------------------------------------------------------- bullets */

  /** Only what stands up to the character behind the marker matters. */
  lemma {:induction false} DigitRunPrefix(s: string, t: string)
    requires DigitRun(s) < |s|
    ensures DigitRun(s + t) == DigitRun(s)
  {
    if IsDigit(s[0]) {
      assert (s + t)[1..] == s[1..] + t;
      DigitRunPrefix(s[1..], t);
    }
  }

  /** A marker never ends in a wide or white character. */
  lemma {:induction false} MarkerEnds(s: string, n: nat)
    requires MarkerLength(s) == Some(n)
    ensures !IsWide(s[n - 1]) && !IsWhitespace(s[n - 1]) && !IsWide(s[0])
    ensures IsMarker(s[0]) || IsDigit(s[0])
  {
  }

  lemma {:induction false} MarkerPrefix(s: string, t: string)
    requires MarkerLength(s).Some?
    ensures MarkerLength(s + t) == MarkerLength(s)
  {
    if !IsMarker(s[0]) { DigitRunPrefix(s, t); }
  }

  lemma {:induction false} BulletPrefix(s: string, t: string)
    requires StartsWithBullet(s)
    ensures StartsWithBullet(s + t)
  {
    MarkerPrefix(s, t);
  }

  /** A marker that reaches past `core` cannot be one: it would cross the white space behind. */
  lemma {:induction false} DigitRunStops(core: string, trail: string)
    requires AllSpace(trail)
    ensures DigitRun(core + trail) == DigitRun(core)
  {
    if |core| == 0 {
      assert core + trail == trail;
    } else {
      assert (core + trail)[1..] == core[1..] + trail;
      DigitRunStops(core[1..], trail);
    }
  }

  lemma {:induction false} MarkerStops(core: string, trail: string)
    requires |core| > 0 && AllSpace(trail)
    ensures MarkerLength(core + trail) == MarkerLength(core)
  {
    if !IsMarker(core[0]) { DigitRunStops(core, trail); }
  }

  /** White space behind makes a bullet of a core that is exactly a marker, and of no other. */
  lemma {:induction false} BareCore(core: string, trail: string)
    requires |core| > 0 && AllSpace(trail)
    ensures StartsWithBullet(core) ==> StartsWithBullet(core + trail)
    ensures StartsWithBullet(core + trail) && !StartsWithBullet(core) ==> MarkerLength(core) == Some(|core|)
  {
    MarkerStops(core, trail);
    var m := MarkerLength(core);
    if m.Some? && m.value < |core| {
      assert (core + trail)[m.value] == core[m.value];
    }
  }

  /** A bare bullet is exactly its marker. */
  lemma {:induction false} BareIsMarker(l: string)
    requires !Blank(l)
    ensures BareBullet(l) ==> MarkerLength(Trim(l)) == Some(|Trim(l)|)
    ensures StartsWithBullet(Trim(l)) ==> StartsWithBullet(TrimStart(l))
  {
    var a, core, b := CoreOf(l);
    BareCore(core, b);
  }

  /** A bare bullet with a glued continuation is a bullet again. */
  lemma {:induction false} BareGlued(core: string, more: string)
    requires |core| > 0 && MarkerLength(core) == Some(|core|)
    ensures StartsWithBullet(core + " " + more)
  {
    MarkerPrefix(core, " " + more);
    assert core + (" " + more) == core + " " + more;
  }

  /* ---------------------------------------------------------------- fences */

  lemma {:induction false} FencePrefix(core: string, t: string)
    requires |core| > 0 && (|t| > 0 ==> t[0] != '`')
    ensures StartsWithFence(core + t) <==> StartsWithFence(core)
  {
    var s := core + t;
    assert |core| < |s| ==> s[|core|] == t[0];
  }

  lemma {:induction false} TrimKeepsFence(l: string)
    requires !Blank(l)
    ensures StartsWithFence(TrimStart(l)) <==> StartsWithFence(Trim(l))
  {
    var a, core, b := CoreOf(l);
    FencePrefix(core, b);
  }

  /* ---------------------------------------------------------------- one decision, before and after */

  /** Growing a line behind its core changes no decision but a bare bullet's. */
  lemma {:induction false} StillKept(tail: Option<char>, core: string, t: string, upper: Upper)
    requires |core| > 0 && KeepBreak(tail, core, upper)
    ensures KeepBreak(tail, core + t, upper)
  {
    if StartsWithBullet(core) { BulletPrefix(core, t); }
  }

  /** A kept break is kept again after trimming unless the line was a bare bullet. */
  lemma {:induction false} TrimKeepsBreak(tail: Option<char>, l: string, upper: Upper)
    requires !Blank(l) && PlainMarkers(upper) && KeepBreak(tail, TrimStart(l), upper)
    ensures KeepBreak(tail, Trim(l), upper) <==> !BareBullet(l)
  {
    var a, core, b := CoreOf(l);
    TrimKeepsFence(l);
    BareIsMarker(l);
    if BareBullet(l) {
      MarkerEnds(core, |core|);
      assert !StartsWithFence(core);
    }
  }

  /* ---------------------------------------------------------------- a fold of a fold */

  /** A bare bullet before an inner break that survives. */
  ghost predicate DanglesAt(lines: seq<string>, i: nat, upper: Upper)
    requires 1 <= i < |lines|
  {
    BareBullet(lines[i]) && (i + 1 < |lines| ==> Kept(lines, i + 1, upper))
  }

  /** No line but the first is a bare bullet that stays alone on its line. */
  ghost predicate Settled(lines: seq<string>, upper: Upper) {
    forall i | 1 <= i < |lines| :: !DanglesAt(lines, i, upper)
  }

  /** As `Settled`, without the last line. */
  ghost predicate SettledInside(lines: seq<string>, upper: Upper) {
    forall i | 1 <= i < |lines| - 1 :: !DanglesAt(lines, i, upper)
  }

  /** `SettledInside`, grown line by line. */
  ghost predicate SettledSoFar(lines: seq<string>, upper: Upper) {
    |lines| <= 1
    || (SettledSoFar(lines[..|lines| - 1], upper)
        && (|lines| >= 3 && Kept(lines, |lines| - 1, upper) ==> !BareBullet(lines[|lines| - 2])))
  }

  /** Every break is kept. */
  ghost predicate AllKept(lines: seq<string>, upper: Upper) {
    |lines| <= 1 || (AllKept(lines[..|lines| - 1], upper) && Kept(lines, |lines| - 1, upper))
  }

  /** The break into the last line, if there is one. */
  ghost predicate LastKept(lines: seq<string>, upper: Upper) {
    |lines| <= 1 || Kept(lines, |lines| - 1, upper)
  }

  lemma {:induction false} SettledSplits(lines: seq<string>, upper: Upper)
    requires |lines| > 0
    ensures Settled(lines, upper) <==> SettledInside(lines, upper) && (|lines| >= 2 ==> !BareBullet(lines[|lines| - 1]))
  {
    var k := |lines| - 1;
    if k >= 1 {
      assert DanglesAt(lines, k, upper) <==> BareBullet(lines[k]);
    }
  }

  lemma {:induction false} SettledGrows(lines: seq<string>, upper: Upper)
    requires |lines| >= 2
    ensures
      var k := |lines| - 1;
      SettledInside(lines, upper)
      <==> SettledInside(lines[..k], upper) && (k >= 2 && Kept(lines, k, upper) ==> !BareBullet(lines[k - 1]))
  {
    var k := |lines| - 1;
    var init := lines[..k];
    forall i: nat | 1 <= i < k - 1 ensures DanglesAt(lines, i, upper) <==> DanglesAt(init, i, upper) {
    }
    if k >= 2 {
      assert DanglesAt(lines, k - 1, upper) <==> BareBullet(lines[k - 1]) && Kept(lines, k, upper);
    }
  }

  lemma {:induction false} SettledIsInside(lines: seq<string>, upper: Upper)
    ensures SettledSoFar(lines, upper) <==> SettledInside(lines, upper)
  {
    if |lines| >= 2 {
      SettledIsInside(lines[..|lines| - 1], upper);
      SettledGrows(lines, upper);
    }
  }

  lemma {:induction false} LastOfSnoc(acc: seq<string>, line: string, upper: Upper)
    requires |acc| > 0
    ensures (acc + [line])[..|acc|] == acc
    ensures LastKept(acc + [line], upper) <==> KeepBreak(LastNonSpace(acc[|acc| - 1]), TrimStart(line), upper)
  {
  }

  lemma {:induction false} LastOfReplaced(acc: seq<string>, line: string, upper: Upper)
    requires |acc| > 0
    ensures
      var m := |acc| - 1;
      var r := acc[..m] + [line];
      r[..m] == acc[..m]
      && (LastKept(r, upper) <==> m == 0 || KeepBreak(LastNonSpace(acc[m - 1]), TrimStart(line), upper))
  {
    if |acc| > 1 {
      LastOfSnoc(acc[..|acc| - 1], line, upper);
    }
  }

  lemma {:induction false} TrimStartGrows(l: string, t: string)
    requires Tight(l)
    ensures TrimStart(l + t) == TrimStart(l) + t && TrimStart(l) == Trim(l) && |Trim(l)| > 0
  {
    TightIsTrimmed(l);
    var indent, core, trail := CoreOf(l);
    assert l == indent + core;
    assert l + t == indent + (core + t);
    TrimStartOf(indent, core + t);
    TrimStartOf(indent, core);
  }

  /** Nothing wide ends a bare bullet, so a space follows it. */
  lemma {:induction false} BareGetsSpace(prev: string, next: string)
    requires !Blank(prev) && BareBullet(prev)
    ensures Glue(LastNonSpace(prev), TrimStart(next)) == " "
  {
    BareIsMarker(prev);
    var a, core, b := CoreOf(prev);
    MarkerEnds(core, |core|);
    LastOfCore(prev);
  }

  lemma {:induction false} LastOfCore(l: string)
    requires !Blank(l)
    ensures |Trim(l)| > 0 && LastNonSpace(l) == Some(Trim(l)[|Trim(l)| - 1])
  {
    var a, core, b := CoreOf(l);
  }

  /** A line that grew is kept as before. */
  lemma {:induction false} GrownIsKept(tail: Option<char>, last: string, more: string, upper: Upper)
    requires Tight(last) && KeepBreak(tail, TrimStart(last), upper)
    ensures KeepBreak(tail, TrimStart(last + more), upper)
  {
    TrimStartGrows(last, more);
    StillKept(tail, TrimStart(last), more, upper);
  }

  /** A bare bullet that grew is kept. */
  lemma {:induction false} BareGrownIsKept(tail: Option<char>, prev: string, more: string, upper: Upper)
    requires Tight(TrimEnd(prev)) && !Blank(prev) && BareBullet(prev)
    ensures KeepBreak(tail, TrimStart(TrimEnd(prev) + (" " + more)), upper)
  {
    var core := Trim(prev);
    var grown := core + " " + more;
    BareIsMarker(prev);
    LastOfCore(prev);
    BareGlued(core, more);
    assert core + (" " + more) == grown;
    assert TrimStart(TrimEnd(prev) + (" " + more)) == grown by { GrownCore(prev, " " + more); }
  }

  lemma {:induction false} GrownCore(prev: string, t: string)
    requires Tight(TrimEnd(prev)) && !Blank(prev)
    ensures TrimStart(TrimEnd(prev) + t) == Trim(prev) + t
  {
    TrimStartGrows(TrimEnd(prev), t);
    var a, core, b := CoreOf(prev);
  }

  /** Gluing a continuation to the last line leaves it behind a kept break. */
  lemma {:induction false} GluedIsKept(tail: Option<char>, last: string, prev: string, glue: string, more: string,
                                       upper: Upper)
    requires Tight(last) && !Blank(prev)
    requires BareBullet(prev) ==> last == TrimEnd(prev) && glue == " "
    requires BareBullet(prev) || KeepBreak(tail, TrimStart(last), upper)
    ensures KeepBreak(tail, TrimStart(last + glue + more), upper)
  {
    assert last + glue + more == last + (glue + more);
    if BareBullet(prev) {
      BareGrownIsKept(tail, prev, more, upper);
    } else {
      GrownIsKept(tail, last, glue + more, upper);
    }
  }

  /** The part of `Decided` about the last line. */
  ghost predicate LastDecided(acc: seq<string>, last: string, upper: Upper)
    requires |acc| > 0
  {
    (LastKept(acc, upper) <==> !BareBullet(last)) && (BareBullet(last) ==> acc[|acc| - 1] == TrimEnd(last))
  }

  lemma {:induction false} KeptLast(acc: seq<string>, prev: string, next: string, upper: Upper)
    requires |acc| > 0 && PlainMarkers(upper) && !Blank(next)
    requires LastNonSpace(acc[|acc| - 1]) == LastNonSpace(prev)
    requires KeepBreak(LastNonSpace(prev), TrimStart(next), upper)
    ensures LastDecided(acc + [TrimEnd(next)], next, upper)
  {
    LastOfSnoc(acc, TrimEnd(next), upper);
    var a, core, b := CoreOf(next);
    TrimKeepsBreak(LastNonSpace(prev), next, upper);
  }

  /**
   What the lines `acc` of a fold say about its input: `settled` if no inner bare bullet stays alone,
   `many` if the input has more than one line, and its last line.
   */
  ghost predicate Decided(acc: seq<string>, settled: bool, many: bool, last: string, upper: Upper)
    requires |acc| > 0
  {
    (AllKept(acc[..|acc| - 1], upper) <==> settled) && (if many then LastDecided(acc, last, upper) else |acc| == 1)
  }

  lemma {:induction false} NotKeptNotBare(tail: Option<char>, next: string, upper: Upper)
    requires !KeepBreak(tail, TrimStart(next), upper)
    ensures !BareBullet(next)
  {
  }

  lemma {:induction false} GluedLast(acc: seq<string>, prev: string, next: string, glue: string, upper: Upper)
    requires |acc| > 0 && AllTight(acc) && !Blank(prev) && !BareBullet(next)
    requires |acc| > 1 ==> LastDecided(acc, prev, upper) && (BareBullet(prev) ==> glue == " ")
    ensures LastDecided(acc[..|acc| - 1] + [acc[|acc| - 1] + glue + Trim(next)], next, upper)
  {
    var m := |acc| - 1;
    LastOfReplaced(acc, acc[m] + glue + Trim(next), upper);
    if m >= 1 {
      assert LastKept(acc, upper) <==> Kept(acc, m, upper);
      GluedIsKept(LastNonSpace(acc[m - 1]), acc[m], prev, glue, Trim(next), upper);
    }
  }

  lemma {:induction false} AllKeptSplits(acc: seq<string>, upper: Upper)
    requires |acc| > 0
    ensures AllKept(acc, upper) <==> AllKept(acc[..|acc| - 1], upper) && LastKept(acc, upper)
  {
  }

  lemma {:induction false} KeptStep(acc: seq<string>, settled: bool, many: bool, prev: string, next: string,
                                    upper: Upper)
    requires |acc| > 0 && PlainMarkers(upper) && Decided(acc, settled, many, prev, upper)
    requires LastNonSpace(acc[|acc| - 1]) == LastNonSpace(prev) && !Blank(next)
    requires KeepBreak(LastNonSpace(prev), TrimStart(next), upper)
    ensures Decided(acc + [TrimEnd(next)], settled && (many ==> !BareBullet(prev)), true, next, upper)
  {
    KeptLast(acc, prev, next, upper);
    LastOfSnoc(acc, TrimEnd(next), upper);
    AllKeptSplits(acc, upper);
  }

  lemma {:induction false} GluedTail(acc: seq<string>, prev: string, next: string, upper: Upper)
    requires |acc| > 0 && AllTight(acc) && !Blank(prev) && (|acc| > 1 ==> LastDecided(acc, prev, upper))
    requires !KeepBreak(LastNonSpace(prev), TrimStart(next), upper)
    ensures
      var m := |acc| - 1;
      LastDecided(acc[..m] + [acc[m] + Glue(LastNonSpace(prev), TrimStart(next)) + Trim(next)], next, upper)
  {
    NotKeptNotBare(LastNonSpace(prev), next, upper);
    if BareBullet(prev) { BareGetsSpace(prev, next); }
    GluedLast(acc, prev, next, Glue(LastNonSpace(prev), TrimStart(next)), upper);
  }

  lemma {:induction false} GluedStep(acc: seq<string>, settled: bool, many: bool, prev: string, next: string,
                                     upper: Upper)
    requires |acc| > 0 && AllTight(acc) && !Blank(prev) && Decided(acc, settled, many, prev, upper)
    requires !KeepBreak(LastNonSpace(prev), TrimStart(next), upper)
    ensures
      var m := |acc| - 1;
      var line := acc[m] + Glue(LastNonSpace(prev), TrimStart(next)) + Trim(next);
      Decided(acc[..m] + [line], settled, true, next, upper)
  {
    var m := |acc| - 1;
    GluedTail(acc, prev, next, upper);
    LastOfReplaced(acc, acc[m] + Glue(LastNonSpace(prev), TrimStart(next)) + Trim(next), upper);
  }

  /** What both kinds of step start from. */
  ghost predicate Folding(acc: seq<string>, lines: seq<string>, upper: Upper)
    requires |lines| >= 2
  {
    var k := |lines| - 1;
    |acc| > 0 && acc == Fold(lines[..k], upper) && AllTight(acc)
    && LastNonSpace(acc[|acc| - 1]) == LastNonSpace(lines[k - 1])
  }

  lemma {:induction false} FoldingHolds(lines: seq<string>, upper: Upper)
    requires Run(lines) && |lines| >= 2
    ensures Folding(Fold(lines[..|lines| - 1], upper), lines, upper)
  {
    FoldIsTight(lines[..|lines| - 1], upper);
  }

  lemma {:induction false} FoldKept(lines: seq<string>, upper: Upper) returns (acc: seq<string>)
    requires Run(lines) && |lines| >= 2 && Kept(lines, |lines| - 1, upper)
    ensures Folding(acc, lines, upper) && Fold(lines, upper) == acc + [TrimEnd(lines[|lines| - 1])]
  {
    acc := Fold(lines[..|lines| - 1], upper);
    FoldingHolds(lines, upper);
  }

  lemma {:induction false} FoldGlued(lines: seq<string>, upper: Upper) returns (acc: seq<string>)
    requires Run(lines) && |lines| >= 2 && !Kept(lines, |lines| - 1, upper)
    ensures Folding(acc, lines, upper)
    ensures
      var k, m := |lines| - 1, |acc| - 1;
      Fold(lines, upper) == acc[..m] + [acc[m] + GlueAt(lines, k) + Trim(lines[k])]
  {
    var k := |lines| - 1;
    acc := Fold(lines[..k], upper);
    FoldStep(lines, upper);
    FoldingHolds(lines, upper);
    AddLineOf(acc, lines[k], false, GlueAt(lines, k));
  }

  /** `Decided` for the lines themselves. */
  ghost predicate DecidedFor(acc: seq<string>, lines: seq<string>, upper: Upper)
    requires |acc| > 0 && |lines| > 0
  {
    Decided(acc, SettledSoFar(lines, upper), |lines| >= 2, lines[|lines| - 1], upper)
  }

  lemma {:induction false} KeptDecides(acc: seq<string>, lines: seq<string>, upper: Upper)
    requires PlainMarkers(upper) && |acc| > 0 && |lines| >= 2 && DecidedFor(acc, lines[..|lines| - 1], upper)
    requires LastNonSpace(acc[|acc| - 1]) == LastNonSpace(lines[|lines| - 2]) && !Blank(lines[|lines| - 1])
    requires Kept(lines, |lines| - 1, upper)
    ensures DecidedFor(acc + [TrimEnd(lines[|lines| - 1])], lines, upper)
  {
    var k := |lines| - 1;
    KeptStep(acc, SettledSoFar(lines[..k], upper), k >= 2, lines[k - 1], lines[k], upper);
  }

  lemma {:induction false} GluedDecides(acc: seq<string>, lines: seq<string>, upper: Upper)
    requires |acc| > 0 && AllTight(acc) && |lines| >= 2 && DecidedFor(acc, lines[..|lines| - 1], upper)
    requires !Blank(lines[|lines| - 2]) && !Kept(lines, |lines| - 1, upper)
    ensures
      var k, m := |lines| - 1, |acc| - 1;
      DecidedFor(acc[..m] + [acc[m] + GlueAt(lines, k) + Trim(lines[k])], lines, upper)
  {
    var k := |lines| - 1;
    GluedStep(acc, SettledSoFar(lines[..k], upper), k >= 2, lines[k - 1], lines[k], upper);
  }

  lemma {:induction false} FoldDecides(lines: seq<string>, upper: Upper)
    requires Run(lines) && PlainMarkers(upper)
    ensures DecidedFor(Fold(lines, upper), lines, upper)
  {
    var k := |lines| - 1;
    if k > 0 {
      RunPrefix(lines, k);
      FoldDecides(lines[..k], upper);
      if Kept(lines, k, upper) {
        var acc := FoldKept(lines, upper);
        KeptDecides(acc, lines, upper);
      } else {
        var acc := FoldGlued(lines, upper);
        GluedDecides(acc, lines, upper);
      }
    }
  }

  /** Tight lines fold to themselves exactly if every break is kept. */
  lemma {:induction false} FoldsToItself(ls: seq<string>, upper: Upper)
    requires |ls| > 0 && AllTight(ls)
    ensures Fold(ls, upper) == ls <==> AllKept(ls, upper)
    ensures Fold(ls, upper) != ls ==> |Fold(ls, upper)| < |ls|
  {
    var k := |ls| - 1;
    if k == 0 {
      OneFoldsToItself(ls, upper);
    } else {
      TightPrefix(ls, k);
      FoldsToItself(ls[..k], upper);
      LastFoldsToItself(ls, upper);
      ItselfGrows(Fold(ls, upper), Fold(ls[..k], upper), ls, upper);
    }
  }

  lemma {:induction false} OneFoldsToItself(ls: seq<string>, upper: Upper)
    requires |ls| == 1 && AllTight(ls)
    ensures Fold(ls, upper) == ls
  {
    TightIsTrimmed(ls[0]);
    assert ls == [ls[0]];
  }

  lemma {:induction false} TightPrefix(ls: seq<string>, n: nat)
    requires AllTight(ls) && n <= |ls|
    ensures AllTight(ls[..n])
  {
  }

  lemma {:induction false} ItselfGrows(f: seq<string>, before: seq<string>, ls: seq<string>, upper: Upper)
    requires |ls| >= 2
    requires
      var k := |ls| - 1;
      (f == ls <==> before == ls[..k] && Kept(ls, k, upper)) && |f| == |before| + if Kept(ls, k, upper) then 1 else 0
    requires before == ls[..|ls| - 1] <==> AllKept(ls[..|ls| - 1], upper)
    requires before != ls[..|ls| - 1] ==> |before| < |ls| - 1
    ensures (f == ls <==> AllKept(ls, upper)) && (f != ls ==> |f| < |ls|)
  {
  }

  lemma {:induction false} LastFoldsToItself(ls: seq<string>, upper: Upper)
    requires |ls| >= 2 && AllTight(ls)
    ensures
      var k := |ls| - 1;
      var f, init := Fold(ls, upper), Fold(ls[..k], upper);
      (f == ls <==> init == ls[..k] && Kept(ls, k, upper)) && |f| == |init| + if Kept(ls, k, upper) then 1 else 0
  {
    var k := |ls| - 1;
    var last := ls[k];
    TightRun(ls);
    assert ls == ls[..k] + [last];
    if Kept(ls, k, upper) {
      var acc := FoldKept(ls, upper);
      TightIsTrimmed(last);
      SnocEqual(acc, ls[..k], last);
    } else {
      var acc := FoldGlued(ls, upper);
      FoldIsTight(ls[..k], upper);
    }
  }

  lemma {:induction false} SnocEqual(a: seq<string>, b: seq<string>, x: string)
    ensures a + [x] == b + [x] <==> a == b
  {
    assert (a + [x])[..|a|] == a && (b + [x])[..|b|] == b;
  }

  lemma {:induction false} TightRun(ls: seq<string>)
    requires |ls| > 0 && AllTight(ls)
    ensures Run(ls)
  {
    forall i | 0 <= i < |ls| ensures !Blank(ls[i]) {
      TightIsTrimmed(ls[i]);
    }
  }

  lemma {:induction false} FoldTwice(lines: seq<string>, upper: Upper)
    requires Run(lines) && PlainMarkers(upper)
    ensures
      var acc := Fold(lines, upper);
      (Fold(acc, upper) == acc <==> Settled(lines, upper))
      && (Fold(acc, upper) != acc ==> |Fold(acc, upper)| < |acc|)
  {
    var acc := Fold(lines, upper);
    FoldIsTight(lines, upper);
    FoldsToItself(acc, upper);
    FoldDecides(lines, upper);
    SettledSplits(lines, upper);
    SettledIsInside(lines, upper);
    AllKeptSplits(acc, upper);
  }
}

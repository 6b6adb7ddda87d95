/** When rejoining twice is rejoining once. */
module RejoinTwice {
  import opened Wrappers
  import opened Text
  import opened Rejoin
  import opened RejoinLines
  import opened RejoinProofs
  import opened RejoinBreaks

  /* ---------------------------------------------------------------- fences stay out, or in */

  lemma {:induction false} GlueStaysUnfenced(last: string, tail: Option<char>, next: string)
    requires Tight(last) && !Blank(next) && !StartsWithFence(TrimStart(last))
    ensures !StartsWithFence(TrimStart(last + Glue(tail, TrimStart(next)) + Trim(next)))
  {
    var glue := Glue(tail, TrimStart(next));
    var more := glue + Trim(next);
    TrimmedHead(next);
    assert more[0] != '`';
    assert last + glue + Trim(next) == last + more;
    TrimStartGrows(last, more);
    FencePrefix(TrimStart(last), more);
  }

  lemma {:induction false} TrimmedHead(l: string)
    requires !Blank(l)
    ensures |Trim(l)| > 0 && |TrimStart(l)| > 0 && Trim(l)[0] == TrimStart(l)[0]
  {
    var a, core, b := CoreOf(l);
  }

  lemma {:induction false} UnfencedSnoc(init: seq<string>, last: string)
    requires !Fenced(init) && !StartsWithFence(TrimStart(last))
    ensures !Fenced(init + [last])
  {
  }

  lemma {:induction false} FoldStaysUnfenced(lines: seq<string>, upper: Upper)
    requires Run(lines) && !Fenced(lines)
    ensures !Fenced(Fold(lines, upper))
  {
    var k := |lines| - 1;
    var next := lines[k];
    assert next in lines;
    TrimKeepsFence(next);
    TrimmedIsTight(next);
    assert !StartsWithFence(TrimStart(TrimEnd(next)));
    if k > 0 {
      assert forall l :: l in lines[..k] ==> l in lines;
      FoldStaysUnfenced(lines[..k], upper);
      if Kept(lines, k, upper) {
        KeptStaysUnfenced(lines, upper);
      } else {
        GluedStaysUnfenced(lines, upper);
      }
    }
  }

  lemma {:induction false} UnfencedParts(acc: seq<string>)
    requires |acc| > 0 && !Fenced(acc)
    ensures !Fenced(acc[..|acc| - 1]) && !StartsWithFence(TrimStart(acc[|acc| - 1]))
  {
    assert acc[|acc| - 1] in acc && forall l :: l in acc[..|acc| - 1] ==> l in acc;
  }

  lemma {:induction false} KeptStaysUnfenced(lines: seq<string>, upper: Upper)
    requires Run(lines) && |lines| >= 2 && Kept(lines, |lines| - 1, upper)
    requires !Fenced(Fold(lines[..|lines| - 1], upper)) && !StartsWithFence(TrimStart(TrimEnd(lines[|lines| - 1])))
    ensures !Fenced(Fold(lines, upper))
  {
    var acc := FoldKept(lines, upper);
    UnfencedSnoc(acc, TrimEnd(lines[|lines| - 1]));
  }

  lemma {:induction false} GluedStaysUnfenced(lines: seq<string>, upper: Upper)
    requires Run(lines) && |lines| >= 2 && !Kept(lines, |lines| - 1, upper)
    requires !Fenced(Fold(lines[..|lines| - 1], upper))
    ensures !Fenced(Fold(lines, upper))
  {
    var k := |lines| - 1;
    var acc := FoldGlued(lines, upper);
    UnfencedGlued(acc, LastNonSpace(lines[k - 1]), lines[k]);
  }

  lemma {:induction false} UnfencedGlued(acc: seq<string>, tail: Option<char>, next: string)
    requires |acc| > 0 && AllTight(acc) && !Fenced(acc) && !Blank(next)
    ensures
      var m := |acc| - 1;
      !Fenced(acc[..m] + [acc[m] + Glue(tail, TrimStart(next)) + Trim(next)])
  {
    var m := |acc| - 1;
    UnfencedParts(acc);
    GlueStaysUnfenced(acc[m], tail, next);
    UnfencedSnoc(acc[..m], acc[m] + Glue(tail, TrimStart(next)) + Trim(next));
  }

  lemma {:induction false} ParagraphTwice(lines: seq<string>, upper: Upper)
    requires Run(lines) && PlainMarkers(upper)
    ensures
      var p := Paragraph(lines, upper);
      (Paragraph(p, upper) == p <==> Fenced(lines) || Settled(lines, upper))
      && (Paragraph(p, upper) != p ==> |Paragraph(p, upper)| < |p|)
  {
    if |lines| == 1 {
      FoldTwice(lines, upper);
    } else if Fenced(lines) {
      FencedTwice(lines);
    } else {
      FoldStaysUnfenced(lines, upper);
      FoldTwice(lines, upper);
    }
  }

  lemma {:induction false} FencedTwice(lines: seq<string>)
    requires Run(lines) && Fenced(lines)
    ensures Fenced(TrimAll(lines)) && TrimAll(TrimAll(lines)) == TrimAll(lines)
  {
    var l :| l in lines && StartsWithFence(TrimStart(l));
    var i :| 0 <= i < |lines| && lines[i] == l;
    TrimKeepsFence(l);
    TrimmedIsTight(l);
    assert TrimAll(lines)[i] in TrimAll(lines);
    forall j | 0 <= j < |lines| ensures TrimEnd(TrimEnd(lines[j])) == TrimEnd(lines[j]) {
      TrimmedIsTight(lines[j]);
      TightIsTrimmed(TrimEnd(lines[j]));
    }
  }

  /* ---------------------------------------------------------------- whole texts */

  /** No paragraph strands a bare bullet. */
  ghost predicate Stable(lines: seq<string>, upper: Upper)
    decreases |lines|
  {
    if |lines| == 0 then true
    else if Blank(lines[0]) then Stable(lines[1..], upper)
    else
      var n := RunLength(lines);
      (Fenced(lines[..n]) || Settled(lines[..n], upper)) && Stable(lines[n..], upper)
  }

  lemma {:induction false} PartsDiffer(a: seq<string>, b: seq<string>, c: seq<string>, d: seq<string>)
    requires a != c ==> |a| < |c|
    requires b != d ==> |b| < |d|
    ensures a + b == c + d <==> a == c && b == d
    ensures a + b != c + d ==> |a + b| < |c + d|
  {
  }

  lemma {:induction false} OutputTwice(lines: seq<string>, upper: Upper)
    requires Lines(lines) && PlainMarkers(upper)
    ensures
      var o := Output(lines, upper);
      (Output(o, upper) == o <==> Stable(lines, upper)) && (Output(o, upper) != o ==> |Output(o, upper)| < |o|)
    decreases |lines|
  {
    var o := Output(lines, upper);
    if |lines| > 0 && Blank(lines[0]) {
      OutputTwice(lines[1..], upper);
      var rest := Output(lines[1..], upper);
      assert o[1..] == rest && o[0] == "";
      PartsDiffer([""], Output(rest, upper), [""], rest);
    } else if |lines| > 0 {
      var n := RunLength(lines);
      OutputRun(lines, upper);
      OutputTwice(lines[n..], upper);
      var p, rest := Paragraph(lines[..n], upper), Output(lines[n..], upper);
      ParagraphTwice(lines[..n], upper);
      assert o[..|p|] == p && o[|p|..] == rest;
      TightIsTrimmed(p[0]);
      PartsDiffer(Paragraph(p, upper), Output(rest, upper), p, rest);
    }
  }

  /** Rejoining twice is rejoining once exactly on the texts that strand no bare bullet. */
  lemma {:induction false} RejoinTwiceIffStable(text: string, upper: Upper)
    requires PlainMarkers(upper)
    ensures Rejoined(Rejoined(text, upper), upper) == Rejoined(text, upper) <==> Stable(SplitLines(text), upper)
  {
    var once := Rejoined(text, upper);
    var twice := Rejoined(once, upper);
    SplitMakesLines(text);
    SplitMakesLines(once);
    SplitMakesLines(twice);
    SplitOfRejoined(text, upper);
    SplitOfRejoined(once, upper);
    OutputTwice(SplitLines(text), upper);
  }

  /* ---------------------------------------------------------------- no trailing white space */

  ghost predicate NoTrailingSpace(lines: seq<string>) {
    forall i :: 0 <= i < |lines| ==> TrimEnd(lines[i]) == lines[i]
  }

  lemma {:induction false} NoTrailingNoBare(l: string)
    requires TrimEnd(l) == l
    ensures !BareBullet(l)
  {
    var a, core, b := CoreOf(l);
    if |core| > 0 { assert Trim(l) == TrimStart(l); }
  }

  lemma {:induction false} TrimmedIsStable(lines: seq<string>, upper: Upper)
    requires NoTrailingSpace(lines)
    ensures Stable(lines, upper)
    decreases |lines|
  {
    if |lines| > 0 && Blank(lines[0]) {
      TrimmedIsStable(lines[1..], upper);
    } else if |lines| > 0 {
      var n := RunLength(lines);
      TrimmedIsStable(lines[n..], upper);
      forall i: nat | 1 <= i < n ensures !DanglesAt(lines[..n], i, upper) {
        NoTrailingNoBare(lines[i]);
      }
    }
  }

  /** In particular on every text whose lines carry no trailing white space. */
  lemma {:induction false} TrimmedTextsAreStable(text: string, upper: Upper)
    requires PlainMarkers(upper) && NoTrailingSpace(SplitLines(text))
    ensures Rejoined(Rejoined(text, upper), upper) == Rejoined(text, upper)
  {
    TrimmedIsStable(SplitLines(text), upper);
    RejoinTwiceIffStable(text, upper);
  }

  /** "a", then a lone "- ": the bullet loses its space, and next time its line. */
  lemma {:induction false} LoneBulletIsStranded(upper: Upper)
    requires PlainMarkers(upper)
    ensures Rejoined(Rejoined("a\n- ", upper), upper) != Rejoined("a\n- ", upper)
  {
    var ls := ["a", "- "];
    LoneBulletLines();
    LoneBulletDangles(ls, upper);
    RejoinTwiceIffStable("a\n- ", upper);
  }

  lemma {:induction false} LoneBulletLines()
    ensures SplitLines("a\n- ") == ["a", "- "]
  {
    var ls := ["a", "- "];
    assert Lines(ls);
    SplitUndoesJoin(ls);
    assert ls[1..] == ["- "] && JoinLines(["- "]) == "- ";
    assert "a" + ("\n" + "- ") == "a\n- ";
  }

  lemma {:induction false} LoneBulletTrimmed()
    ensures TrimStart("- ") == "- " && Trim("- ") == "-" && !Blank("a") && TrimStart("a") == "a"
  {
    assert "- "[..1] == "-";
  }

  lemma {:induction false} LoneBulletDangles(ls: seq<string>, upper: Upper)
    requires ls == ["a", "- "]
    ensures !Stable(ls, upper)
  {
    LoneBulletTrimmed();
    assert !Blank(ls[0]) && !Blank(ls[1]);
    assert ls[1..][1..] == [] && RunLength(ls[1..]) == 1 + RunLength([]);
    assert RunLength(ls) == 2 && ls[..2] == ls;
    assert StartsWithBullet("- ") && !StartsWithBullet("-");
    assert DanglesAt(ls, 1, upper);
    assert !Fenced(ls);
  }
}

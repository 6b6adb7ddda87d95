/**
 What rejoining keeps.  The sequence of characters that are not white space is unchanged, blank lines
 and paragraphs alternate as before, and a final newline stays.  Every output line of a paragraph is
 tight: it ends in a visible character.  A fold has one line more than there are kept breaks, since
 the growing last line never sways a decision.
 */
module RejoinProofs {
  import opened Wrappers
  import opened Text
  import opened Rejoin
  import opened RejoinLines

  /* ---------------------------------------------------------------- lines of a paragraph */

  /** Nothing to trim at the end, and not empty. */
  ghost predicate Tight(l: string) {
    |l| > 0 && !IsWhitespace(l[|l| - 1])
  }

  ghost predicate AllTight(ls: seq<string>) {
    forall i :: 0 <= i < |ls| ==> Tight(ls[i])
  }

  ghost predicate Run(ls: seq<string>) {
    |ls| > 0 && forall i :: 0 <= i < |ls| ==> !Blank(ls[i])
  }

  lemma {:induction false} NotAllSpace(a: string, b: string)
    requires AllSpace(a) && AllSpace(b)
    ensures !Tight(a + b)
  {
    assert AllSpace(a + b);
  }

  lemma {:induction false} TightIsNotBlank(l: string)
    requires Tight(l)
    ensures !Blank(l)
  {
    var a, c, b := CoreOf(l);
    NotAllSpace(a, b);
    assert a + "" + b == a + b;
  }

  lemma {:induction false} TightIsTrimmed(l: string)
    requires Tight(l)
    ensures TrimEnd(l) == l && !Blank(l) && LastNonSpace(l) == Some(l[|l| - 1])
  {
    TightIsNotBlank(l);
    assert TrimEnd(l) == l;
  }

  lemma {:induction false} TrimmedIsTight(l: string)
    requires !Blank(l)
    ensures Tight(TrimEnd(l)) && Tight(Trim(l)) && Trim(l) == TrimEnd(TrimStart(l))
    ensures LastNonSpace(l) == Some(Trim(l)[|Trim(l)| - 1])
    ensures LastNonSpace(TrimEnd(l)) == LastNonSpace(l)
    ensures TrimStart(TrimEnd(l)) == Trim(l) && Trim(l)[0] == TrimStart(l)[0]
  {
    var a, c, b := CoreOf(l);
    TightIsTrimmed(TrimEnd(l));
  }

  lemma {:induction false} KeepsLine(acc: seq<string>, next: string)
    requires |acc| > 0 && AllTight(acc) && !Blank(next)
    ensures AllTight(acc + [TrimEnd(next)]) && LastNonSpace(TrimEnd(next)) == LastNonSpace(next)
  {
    TrimmedIsTight(next);
    TightSnoc(acc, TrimEnd(next));
  }

  lemma {:induction false} GluesLine(acc: seq<string>, next: string, glue: string)
    requires |acc| > 0 && AllTight(acc) && !Blank(next)
    ensures
      var m := |acc| - 1;
      var line := acc[m] + glue + Trim(next);
      TrimEnd(acc[m]) == acc[m] && TrimEnd(TrimStart(next)) == Trim(next)
      && AllTight(acc[..m] + [line]) && LastNonSpace(line) == LastNonSpace(next)
  {
    var m := |acc| - 1;
    var last, core := acc[m], Trim(next);
    TightIsTrimmed(last);
    TrimmedIsTight(next);
    GluedIsTight(last, glue, core);
    TightSnoc(acc[..m], last + glue + core);
  }

  /** One step of a fold on tight lines: they stay tight, and the last one ends as `next` does. */
  lemma {:induction false} AddLineOf(acc: seq<string>, next: string, keep: bool, glue: string)
    requires |acc| > 0 && AllTight(acc) && !Blank(next)
    ensures
      var r := AddLine(acc, next, keep, glue);
      var m := |acc| - 1;
      AllTight(r) && LastNonSpace(r[|r| - 1]) == LastNonSpace(next)
      && r == if keep then acc + [TrimEnd(next)] else acc[..m] + [acc[m] + glue + Trim(next)]
  {
    if keep {
      KeepsLine(acc, next);
    } else {
      GluesLine(acc, next, glue);
    }
  }

  lemma {:induction false} TightSnoc(init: seq<string>, last: string)
    requires AllTight(init) && Tight(last)
    ensures AllTight(init + [last]) && (init + [last])[|init + [last]| - 1] == last
  {
  }

  lemma {:induction false} GluedIsTight(l: string, glue: string, core: string)
    requires Tight(l) && Tight(core)
    ensures Tight(l + glue + core) && LastNonSpace(l + glue + core) == Some(core[|core| - 1])
  {
    var r := l + glue + core;
    assert r[|r| - 1] == core[|core| - 1];
    TightIsTrimmed(r);
  }

  /** The break before line i survives; only the two lines around it matter. */
  predicate Kept(lines: seq<string>, i: nat, upper: Upper)
    requires 1 <= i < |lines|
  {
    KeepBreak(LastNonSpace(lines[i - 1]), TrimStart(lines[i]), upper)
  }

  function GlueAt(lines: seq<string>, i: nat): (g: string)
    requires 1 <= i < |lines|
    ensures |g| == 0 || g == " "
  {
    Glue(LastNonSpace(lines[i - 1]), TrimStart(lines[i]))
  }

  /** One step of a fold keeps its lines tight; the last one ends as `next` does. */
  lemma {:induction false} FoldLineIsTight(acc: seq<string>, next: string, upper: Upper)
    requires |acc| > 0 && AllTight(acc) && !Blank(next)
    ensures
      var r := FoldLine(acc, next, upper);
      AllTight(r) && LastNonSpace(r[|r| - 1]) == LastNonSpace(next) && |r| <= |acc| + 1
  {
    var tail := LastNonSpace(acc[|acc| - 1]);
    AddLineOf(acc, next, KeepBreak(tail, TrimStart(next), upper), Glue(tail, TrimStart(next)));
  }

  lemma {:induction false} FirstIsTight(l: string)
    requires !Blank(l)
    ensures AllTight([TrimEnd(l)]) && LastNonSpace(TrimEnd(l)) == LastNonSpace(l)
  {
    TrimmedIsTight(l);
  }

  lemma {:induction false} RunPrefix(lines: seq<string>, n: nat)
    requires Run(lines) && 0 < n < |lines|
    ensures Run(lines[..n]) && !Blank(lines[n])
  {
  }

  /** Output lines are tight, and the last one ends as the last input line does. */
  lemma {:induction false} FoldIsTight(lines: seq<string>, upper: Upper)
    requires Run(lines)
    ensures AllTight(Fold(lines, upper)) && |Fold(lines, upper)| <= |lines|
    ensures LastNonSpace(Fold(lines, upper)[|Fold(lines, upper)| - 1]) == LastNonSpace(lines[|lines| - 1])
  {
    var k := |lines| - 1;
    if k == 0 {
      FirstIsTight(lines[0]);
    } else {
      RunPrefix(lines, k);
      FoldIsTight(lines[..k], upper);
      FoldLineIsTight(Fold(lines[..k], upper), lines[k], upper);
    }
  }

  lemma {:induction false} ParagraphIsTight(lines: seq<string>, upper: Upper)
    requires Run(lines)
    ensures AllTight(Paragraph(lines, upper)) && |Paragraph(lines, upper)| <= |lines|
  {
    FoldIsTight(lines, upper);
    forall i | 0 <= i < |lines| ensures Tight(TrimAll(lines)[i]) {
      TrimmedIsTight(lines[i]);
    }
  }

  /** A fold seen from its last line. */
  lemma {:induction false} FoldStep(lines: seq<string>, upper: Upper)
    requires Run(lines) && |lines| > 1
    ensures
      var k := |lines| - 1;
      Run(lines[..k]) && AllTight(Fold(lines[..k], upper))
      && Fold(lines, upper) == AddLine(Fold(lines[..k], upper), lines[k], Kept(lines, k, upper), GlueAt(lines, k))
  {
    FoldIsTight(lines[..|lines| - 1], upper);
  }

  lemma {:induction false} FoldIsFlat(lines: seq<string>, upper: Upper)
    requires Lines(lines) && |lines| > 0
    ensures Lines(Fold(lines, upper))
  {
    var k := |lines| - 1;
    TrimIsFlat(lines[k]);
    if k > 0 {
      FoldIsFlat(lines[..k], upper);
      var acc := Fold(lines[..k], upper);
      AddLineIsFlat(acc, lines[k], KeepBreak(LastNonSpace(acc[|acc| - 1]), TrimStart(lines[k]), upper),
        Glue(LastNonSpace(acc[|acc| - 1]), TrimStart(lines[k])));
    }
  }

  lemma {:induction false} AddLineIsFlat(acc: seq<string>, next: string, keep: bool, glue: string)
    requires |acc| > 0 && Lines(acc) && Flat(next) && (|glue| == 0 || glue == " ")
    ensures Lines(AddLine(acc, next, keep, glue))
  {
    var m := |acc| - 1;
    var head := TrimEnd(acc[m]);
    TrimIsFlat(acc[m]);
    TrimIsFlat(next);
    TrimIsFlat(TrimStart(next));
    FlatConcat(head + glue, TrimEnd(TrimStart(next)));
    FlatConcat(head, glue);
  }

  lemma {:induction false} ParagraphIsFlat(lines: seq<string>, upper: Upper)
    requires Lines(lines) && |lines| > 0
    ensures Lines(Paragraph(lines, upper))
  {
    FoldIsFlat(lines, upper);
    forall i | 0 <= i < |lines| ensures Flat(TrimAll(lines)[i]) {
      TrimIsFlat(lines[i]);
    }
  }

  function KeptCount(lines: seq<string>, upper: Upper): nat {
    if |lines| <= 1 then 0
    else KeptCount(lines[..|lines| - 1], upper) + if Kept(lines, |lines| - 1, upper) then 1 else 0
  }

  /**
   * The buffer's growing last line never sways a decision: a fold has one line
   * more than there are kept breaks.
   */
  lemma {:induction false} FoldCountsBreaks(lines: seq<string>, upper: Upper)
    requires Run(lines)
    ensures |Fold(lines, upper)| == 1 + KeptCount(lines, upper)
  {
    var k := |lines| - 1;
    if k > 0 {
      FoldCountsBreaks(lines[..k], upper);
      FoldStep(lines, upper);
    }
  }

  /* ---------------------------------------------------------------- conservation */

  lemma {:induction false} OneLine(l: string)
    ensures NonSpaceOf([l]) == NonSpace(l)
  {
    assert [l][1..] == [];
  }

  lemma {:induction false} AddLineConserves(acc: seq<string>, next: string, keep: bool, glue: string)
    requires |acc| > 0 && AllTight(acc) && !Blank(next) && (|glue| == 0 || glue == " ")
    ensures NonSpaceOf(AddLine(acc, next, keep, glue)) == NonSpaceOf(acc) + NonSpace(next)
  {
    var m := |acc| - 1;
    AddLineOf(acc, next, keep, glue);
    TrimConserves(next);
    if keep {
      NonSpaceOfConcat(acc, [TrimEnd(next)]);
      OneLine(TrimEnd(next));
    } else {
      TrimConserves(TrimStart(next));
      ReplaceLastConserves(acc, glue, Trim(next));
    }
  }

  lemma {:induction false} ReplaceLastConserves(acc: seq<string>, glue: string, more: string)
    requires |acc| > 0 && (|glue| == 0 || glue == " ")
    ensures
      var m := |acc| - 1;
      NonSpaceOf(acc[..m] + [acc[m] + glue + more]) == NonSpaceOf(acc) + NonSpace(more)
  {
    var m := |acc| - 1;
    var init, last := acc[..m], acc[m];
    assert acc == init + [last];
    SnocConserves(init, last);
    SnocConserves(init, last + glue + more);
    GluedConserves(last, glue, more);
    Associates(NonSpaceOf(init), NonSpace(last), NonSpace(more));
  }

  lemma {:induction false} SnocConserves(init: seq<string>, last: string)
    ensures NonSpaceOf(init + [last]) == NonSpaceOf(init) + NonSpace(last)
  {
    NonSpaceOfConcat(init, [last]);
    OneLine(last);
  }

  lemma {:induction false} Associates(a: string, b: string, c: string)
    ensures a + (b + c) == (a + b) + c
  {
  }

  lemma {:induction false} GluedConserves(l: string, glue: string, more: string)
    requires |glue| == 0 || glue == " "
    ensures NonSpace(l + glue + more) == NonSpace(l) + NonSpace(more)
  {
    NonSpaceConcat(l + glue, more);
    NonSpaceConcat(l, glue);
    SpaceIsNothing(glue);
  }

  lemma {:induction false} FoldLineConserves(acc: seq<string>, next: string, upper: Upper)
    requires |acc| > 0 && AllTight(acc) && !Blank(next)
    ensures NonSpaceOf(FoldLine(acc, next, upper)) == NonSpaceOf(acc) + NonSpace(next)
  {
    var tail := LastNonSpace(acc[|acc| - 1]);
    AddLineConserves(acc, next, KeepBreak(tail, TrimStart(next), upper), Glue(tail, TrimStart(next)));
  }

  lemma {:induction false} LastConserves(ls: seq<string>)
    requires |ls| > 0
    ensures NonSpaceOf(ls) == NonSpaceOf(ls[..|ls| - 1]) + NonSpace(ls[|ls| - 1])
  {
    SnocConserves(ls[..|ls| - 1], ls[|ls| - 1]);
    assert ls == ls[..|ls| - 1] + [ls[|ls| - 1]];
  }

  lemma {:induction false} FoldConserves(lines: seq<string>, upper: Upper)
    requires Run(lines)
    ensures NonSpaceOf(Fold(lines, upper)) == NonSpaceOf(lines)
  {
    var k := |lines| - 1;
    if k == 0 {
      TrimConserves(lines[0]);
      OneLine(lines[0]);
      OneLine(TrimEnd(lines[0]));
      assert lines == [lines[0]];
    } else {
      RunPrefix(lines, k);
      FoldConserves(lines[..k], upper);
      FoldIsTight(lines[..k], upper);
      FoldLineConserves(Fold(lines[..k], upper), lines[k], upper);
      LastConserves(lines);
    }
  }

  lemma {:induction false} TrimAllConserves(lines: seq<string>)
    ensures NonSpaceOf(TrimAll(lines)) == NonSpaceOf(lines)
  {
    if |lines| > 0 {
      TrimConserves(lines[0]);
      TrimAllConserves(lines[1..]);
      assert TrimAll(lines)[1..] == TrimAll(lines[1..]);
    }
  }

  lemma {:induction false} BlankIsNothing(l: string)
    requires Blank(l)
    ensures |NonSpace(l)| == 0
  {
    TrimConserves(l);
    TrimConserves(TrimStart(l));
  }

  /** A run is as long as it can be. */
  lemma {:induction false} RunIsMaximal(lines: seq<string>)
    ensures forall i :: 0 <= i < RunLength(lines) ==> !Blank(lines[i])
    ensures RunLength(lines) < |lines| ==> Blank(lines[RunLength(lines)])
  {
    if |lines| > 0 && !Blank(lines[0]) {
      RunIsMaximal(lines[1..]);
      var n := RunLength(lines);
      assert forall i :: 0 <= i < n - 1 ==> lines[1..][i] == lines[i + 1];
      forall i | 0 <= i < n ensures !Blank(lines[i]) {
        if i > 0 { assert lines[1..][i - 1] == lines[i]; }
      }
    }
  }

  lemma {:induction false} RunOf(lines: seq<string>)
    requires Lines(lines) && |lines| > 0 && !Blank(lines[0])
    ensures
      var n := RunLength(lines);
      n > 0 && Run(lines[..n]) && Lines(lines[..n]) && Lines(lines[n..]) && (n < |lines| ==> Blank(lines[n]))
  {
    RunIsMaximal(lines);
  }

  lemma {:induction false} OutputConserves(lines: seq<string>, upper: Upper)
    requires Lines(lines)
    ensures NonSpaceOf(Output(lines, upper)) == NonSpaceOf(lines)
    decreases |lines|
  {
    if |lines| > 0 && Blank(lines[0]) {
      BlankIsNothing(lines[0]);
      OutputConserves(lines[1..], upper);
      assert Output(lines, upper)[1..] == Output(lines[1..], upper);
    } else if |lines| > 0 {
      var n := RunLength(lines);
      RunOf(lines);
      OutputConserves(lines[n..], upper);
      ParagraphConserves(lines[..n], upper);
      PartsConserve(lines, n);
      NonSpaceOfConcat(Paragraph(lines[..n], upper), Output(lines[n..], upper));
    }
  }

  lemma {:induction false} PartsConserve(ls: seq<string>, n: nat)
    requires n <= |ls|
    ensures NonSpaceOf(ls) == NonSpaceOf(ls[..n]) + NonSpaceOf(ls[n..])
  {
    NonSpaceOfConcat(ls[..n], ls[n..]);
    assert ls == ls[..n] + ls[n..];
  }

  lemma {:induction false} ParagraphConserves(lines: seq<string>, upper: Upper)
    requires Run(lines)
    ensures NonSpaceOf(Paragraph(lines, upper)) == NonSpaceOf(lines)
  {
    FoldConserves(lines, upper);
    TrimAllConserves(lines);
  }

  /** Rejoining changes white space only, on every text and whatever counts as upper case. */
  lemma {:induction false} RejoinConserves(text: string, upper: Upper)
    ensures NonSpace(Rejoined(text, upper)) == NonSpace(text)
  {
    var lines := SplitLines(text);
    SplitMakesLines(text);
    JoinConserves(lines);
    JoinConserves(Output(lines, upper));
    OutputConserves(lines, upper);
  }

  /* ---------------------------------------------------------------- shape */

  datatype Part = Gap | Prose

  /** The blank lines and the runs of other lines, in order. */
  function Shape(lines: seq<string>): seq<Part>
    decreases |lines|
  {
    if |lines| == 0 then []
    else if Blank(lines[0]) then [Gap] + Shape(lines[1..])
    else [Prose] + Shape(lines[RunLength(lines)..])
  }

  lemma {:induction false} RunLengthOf(run: seq<string>, rest: seq<string>)
    requires AllTight(run) && (|rest| == 0 || Blank(rest[0]))
    ensures RunLength(run + rest) == |run|
  {
    if |run| == 0 {
      assert run + rest == rest;
    } else {
      TightIsTrimmed(run[0]);
      assert (run + rest)[1..] == run[1..] + rest;
      RunLengthOf(run[1..], rest);
    }
  }

  /** What an output looks like from outside: no break inside a line, and as many lines at most. */
  lemma {:induction false} OutputIsLines(lines: seq<string>, upper: Upper)
    requires Lines(lines)
    ensures Lines(Output(lines, upper)) && |Output(lines, upper)| <= |lines|
    ensures |Output(lines, upper)| == 0 <==> |lines| == 0
    ensures |lines| > 0 ==> (Blank(Output(lines, upper)[0]) <==> Blank(lines[0]))
    decreases |lines|
  {
    if |lines| > 0 && Blank(lines[0]) {
      OutputIsLines(lines[1..], upper);
    } else if |lines| > 0 {
      var n := RunLength(lines);
      RunOf(lines);
      ParagraphIsTight(lines[..n], upper);
      ParagraphIsFlat(lines[..n], upper);
      TightIsTrimmed(Paragraph(lines[..n], upper)[0]);
      OutputIsLines(lines[n..], upper);
    }
  }

  /** A paragraph's output is again one run. */
  lemma {:induction false} OutputRun(lines: seq<string>, upper: Upper)
    requires Lines(lines) && |lines| > 0 && !Blank(lines[0])
    ensures
      var n := RunLength(lines);
      n > 0 && Run(lines[..n]) && Lines(lines[n..]) && AllTight(Paragraph(lines[..n], upper))
      && RunLength(Output(lines, upper)) == |Paragraph(lines[..n], upper)|
  {
    var n := RunLength(lines);
    RunOf(lines);
    ParagraphIsTight(lines[..n], upper);
    OutputIsLines(lines[n..], upper);
    RunLengthOf(Paragraph(lines[..n], upper), Output(lines[n..], upper));
  }

  lemma {:induction false} OutputKeepsShape(lines: seq<string>, upper: Upper)
    requires Lines(lines)
    ensures Shape(Output(lines, upper)) == Shape(lines)
    decreases |lines|
  {
    if |lines| > 0 && Blank(lines[0]) {
      OutputKeepsShape(lines[1..], upper);
      assert Output(lines, upper)[1..] == Output(lines[1..], upper);
    } else if |lines| > 0 {
      var n := RunLength(lines);
      OutputRun(lines, upper);
      OutputKeepsShape(lines[n..], upper);
      var p := Paragraph(lines[..n], upper);
      assert Output(lines, upper)[|p|..] == Output(lines[n..], upper);
      TightIsTrimmed(p[0]);
      assert Output(lines, upper)[0] == p[0];
    }
  }

  lemma {:induction false} SplitOfRejoined(text: string, upper: Upper)
    ensures SplitLines(Rejoined(text, upper)) == Output(SplitLines(text), upper)
  {
    var lines := SplitLines(text);
    SplitMakesLines(text);
    OutputIsLines(lines, upper);
    SplitUndoesJoin(Output(lines, upper));
    if |text| == 0 {
      assert lines == [""] && |Output(lines[1..], upper)| == 0;
    }
  }

  /** Blank lines stay where they are: each as one line, between the same paragraphs. */
  lemma {:induction false} RejoinKeepsShape(text: string, upper: Upper)
    ensures Shape(SplitLines(Rejoined(text, upper))) == Shape(SplitLines(text))
  {
    SplitMakesLines(text);
    SplitOfRejoined(text, upper);
    OutputKeepsShape(SplitLines(text), upper);
  }

  /* ---------------------------------------------------------------- the final newline */

  predicate EndsInNewline(t: string) {
    |t| > 0 && t[|t| - 1] == '\n'
  }

  predicate EmptyLast(ls: seq<string>) {
    |ls| >= 2 && ls[|ls| - 1] == ""
  }

  lemma {:induction false} FlatEnds(l: string)
    requires Flat(l) && |l| > 0
    ensures l[|l| - 1] != '\n'
  {
    if |l| > 1 { FlatEnds(l[1..]); }
  }

  lemma {:induction false} JoinEnds(ls: seq<string>)
    requires Lines(ls) && |ls| > 0
    ensures EndsInNewline(JoinLines(ls)) <==> EmptyLast(ls)
  {
    var k := |ls| - 1;
    var last := ls[k];
    if |last| > 0 { FlatEnds(last); }
    if k > 0 {
      assert ls == ls[..k] + [last];
      JoinConcat(ls[..k], [last]);
      assert JoinLines([last]) == last;
      var head := JoinLines(ls[..k]) + "\n";
      assert JoinLines(ls) == head + last && head[|head| - 1] == '\n';
    }
  }

  lemma {:induction false} OutputEnds(lines: seq<string>, upper: Upper)
    requires Lines(lines) && |lines| > 0
    ensures |Output(lines, upper)| > 0
    ensures EndsEmpty(Output(lines, upper)) <==> Blank(lines[|lines| - 1])
    ensures |lines| >= 2 && Blank(lines[|lines| - 1]) ==> |Output(lines, upper)| >= 2
    decreases |lines|
  {
    if |lines| > 1 && Blank(lines[0]) {
      OutputEnds(lines[1..], upper);
      LastOf([""], Output(lines[1..], upper));
    } else if Blank(lines[0]) {
      assert |lines[1..]| == 0 && Output(lines, upper) == [""];
    } else {
      var n := RunLength(lines);
      OutputRun(lines, upper);
      if n < |lines| {
        OutputEnds(lines[n..], upper);
        LastOf(Paragraph(lines[..n], upper), Output(lines[n..], upper));
      } else {
        assert lines[..n] == lines;
        AllOneRunEnds(lines, upper);
      }
    }
  }

  lemma {:induction false} AllOneRunEnds(lines: seq<string>, upper: Upper)
    requires |lines| > 0 && RunLength(lines) == |lines| && Run(lines)
    requires AllTight(Paragraph(lines, upper))
    ensures |Output(lines, upper)| > 0 && !EndsEmpty(Output(lines, upper)) && !Blank(lines[|lines| - 1])
  {
    var p := Paragraph(lines, upper);
    assert lines[..|lines|] == lines && |lines[|lines|..]| == 0;
    assert Output(lines, upper) == p;
    assert Tight(p[|p| - 1]);
  }

  predicate EndsEmpty(ls: seq<string>) {
    |ls| > 0 && ls[|ls| - 1] == ""
  }

  lemma {:induction false} LastOf(a: seq<string>, b: seq<string>)
    requires |a| > 0 && |b| > 0
    ensures (EndsEmpty(a + b) <==> EndsEmpty(b)) && |a + b| >= 2
  {
  }

  predicate BlankLast(ls: seq<string>) {
    |ls| >= 2 && Blank(ls[|ls| - 1])
  }

  lemma {:induction false} OutputEmptyLast(lines: seq<string>, upper: Upper)
    requires Lines(lines) && |lines| > 0
    ensures EmptyLast(Output(lines, upper)) <==> BlankLast(lines)
  {
    OutputIsLines(lines, upper);
    OutputEnds(lines, upper);
  }

  lemma {:induction false} RejoinedEnds(text: string, upper: Upper)
    ensures EndsInNewline(Rejoined(text, upper)) <==> EmptyLast(Output(SplitLines(text), upper))
  {
    SplitMakesLines(Rejoined(text, upper));
    JoinEnds(SplitLines(Rejoined(text, upper)));
    SplitOfRejoined(text, upper);
  }

  /** The result ends in a newline just when the last of two or more lines is blank. */
  lemma {:induction false} RejoinEnds(text: string, upper: Upper)
    ensures EndsInNewline(Rejoined(text, upper)) <==> BlankLast(SplitLines(text))
  {
    SplitMakesLines(text);
    RejoinedEnds(text, upper);
    OutputEmptyLast(SplitLines(text), upper);
  }

  /** So a newline at the end is kept, and the branch that would add one is dead. */
  lemma {:induction false} NewlineIsKept(text: string, upper: Upper)
    requires EndsInNewline(text)
    ensures EndsInNewline(Rejoined(text, upper))
  {
    SplitMakesLines(text);
    JoinEnds(SplitLines(text));
    RejoinEnds(text, upper);
  }
}

/**
 The loops of src/cc.rs, as the source runs them: one pass over the lines of a text, one pass over the
 lines of each paragraph, and a buffer that grows by whole lines or is trimmed and extended. They
 compute `Rejoin.Paragraph` and `Rejoin.Rejoined`: the buffer is the fold's lines joined, and its
 last non-space character and trimmed form are those of its last line.
 */
module Rejoiner {
  import opened Text
  import opened Rejoin
  import opened RejoinLines
  import opened RejoinProofs

  /** What the buffer holds before its last line. */
  function Before(init: seq<string>): string {
    if |init| == 0 then "" else JoinLines(init) + "\n"
  }

  lemma {:induction false} TrimEndBehind(s: string, l: string)
    requires !Blank(l)
    ensures TrimEnd(s + l) == s + TrimEnd(l) && |TrimEnd(l)| > 0
  {
    TrimmedIsTight(l);
    var b := TrimEndParts(l);
    var t := TrimEnd(l);
    assert (s + t)[|s + t| - 1] == t[|t| - 1];
    TrimEndOf(s + t, b);
    assert s + l == s + (t + b);
    Associates(s, t, b);
  }

  lemma {:induction false} TailBehind(s: string, l: string)
    requires !Blank(l)
    ensures LastNonSpace(s + l) == LastNonSpace(l)
  {
    TrimEndBehind(s, l);
  }

  lemma {:induction false} JoinSnoc(init: seq<string>, last: string)
    ensures JoinLines(init + [last]) == Before(init) + last
  {
    if |init| > 0 {
      JoinConcat(init, [last]);
    } else {
      assert [] + [last] == [last];
    }
  }

  method JoinTrimmed(lines: seq<string>) returns (out: string)
    requires |lines| > 0
    ensures out == JoinLines(TrimAll(lines))
  {
    out := TrimEnd(lines[0]);
    assert TrimAll(lines[..1]) == [out];
    for i := 1 to |lines|
      invariant out == JoinLines(TrimAll(lines[..i]))
    {
      assert TrimAll(lines[..i + 1]) == TrimAll(lines[..i]) + [TrimEnd(lines[i])];
      JoinSnoc(TrimAll(lines[..i]), TrimEnd(lines[i]));
      out := out + "\n" + TrimEnd(lines[i]);
    }
    assert lines[..|lines|] == lines;
  }

  /** One pass over the buffer: the growing text is the fold's lines, joined. */
  method RejoinParagraph(lines: seq<string>, upper: Upper) returns (out: string)
    requires Run(lines)
    ensures out == JoinLines(Paragraph(lines, upper))
  {
    if |lines| == 1 {
      return TrimEnd(lines[0]);
    }
    if Fenced(lines) {
      out := JoinTrimmed(lines);
      return;
    }
    out := TrimEnd(lines[0]);
    assert lines[..1] == [lines[0]];
    for i := 1 to |lines|
      invariant out == JoinLines(Fold(lines[..i], upper))
    {
      var prevTail, next := LastNonSpace(out), lines[i];
      AddsLine(lines, i, upper);
      if KeepBreak(prevTail, TrimStart(next), upper) {
        out := out + "\n" + TrimEnd(next);
      } else {
        out := TrimEnd(out) + Glue(prevTail, TrimStart(next)) + TrimEnd(TrimStart(next));
      }
    }
    assert lines[..|lines|] == lines;
  }

  /** The buffer's last non-space and its trimmed form are those of its last line. */
  lemma {:induction false} BufferEnds(init: seq<string>, last: string)
    requires !Blank(last)
    ensures LastNonSpace(JoinLines(init + [last])) == LastNonSpace(last)
    ensures TrimEnd(JoinLines(init + [last])) == Before(init) + TrimEnd(last)
  {
    JoinSnoc(init, last);
    TrimEndBehind(Before(init), last);
    TailBehind(Before(init), last);
  }

  lemma {:induction false} GluesToBuffer(init: seq<string>, last: string, glue: string, more: string)
    requires !Blank(last)
    ensures JoinLines(init + [TrimEnd(last) + glue + more]) == TrimEnd(JoinLines(init + [last])) + glue + more
  {
    BufferEnds(init, last);
    JoinSnoc(init, TrimEnd(last) + glue + more);
    Concats(Before(init), TrimEnd(last), glue, more);
  }

  lemma {:induction false} Concats(a: string, b: string, c: string, d: string)
    ensures a + (b + c + d) == a + b + c + d
  {
  }

  lemma {:induction false} AddsToBuffer(acc: seq<string>, next: string, keep: bool, glue: string)
    requires |acc| > 0 && !Blank(acc[|acc| - 1])
    ensures
      var out := JoinLines(acc);
      JoinLines(AddLine(acc, next, keep, glue))
      == if keep then out + "\n" + TrimEnd(next) else TrimEnd(out) + glue + TrimEnd(TrimStart(next))
  {
    var m := |acc| - 1;
    if keep {
      JoinSnoc(acc, TrimEnd(next));
    } else {
      LastApart(acc);
      GluesToBuffer(acc[..m], acc[m], glue, TrimEnd(TrimStart(next)));
    }
  }

  lemma {:induction false} LastApart(ls: seq<string>)
    requires |ls| > 0
    ensures ls[..|ls| - 1] + [ls[|ls| - 1]] == ls
  {
  }

  lemma {:induction false} TailOfBuffer(acc: seq<string>)
    requires |acc| > 0 && !Blank(acc[|acc| - 1])
    ensures LastNonSpace(JoinLines(acc)) == LastNonSpace(acc[|acc| - 1])
  {
    BufferEnds(acc[..|acc| - 1], acc[|acc| - 1]);
    LastApart(acc);
  }

  /** The buffer after one more line. */
  function Extended(out: string, next: string, upper: Upper): string {
    var tail, head := LastNonSpace(out), TrimStart(next);
    if KeepBreak(tail, head, upper) then out + "\n" + TrimEnd(next)
    else TrimEnd(out) + Glue(tail, head) + TrimEnd(head)
  }

  lemma {:induction false} ExtendsBuffer(acc: seq<string>, next: string, upper: Upper)
    requires |acc| > 0 && AllTight(acc)
    ensures JoinLines(FoldLine(acc, next, upper)) == Extended(JoinLines(acc), next, upper)
  {
    var tail := LastNonSpace(acc[|acc| - 1]);
    TightIsNotBlank(acc[|acc| - 1]);
    TailOfBuffer(acc);
    AddsToBuffer(acc, next, KeepBreak(tail, TrimStart(next), upper), Glue(tail, TrimStart(next)));
  }

  /** One turn of the loop is one step of the fold. */
  lemma {:induction false} AddsLine(lines: seq<string>, i: nat, upper: Upper)
    requires Run(lines) && 1 <= i < |lines|
    ensures JoinLines(Fold(lines[..i + 1], upper)) == Extended(JoinLines(Fold(lines[..i], upper)), lines[i], upper)
  {
    FoldPrefix(lines, i, upper);
    RunPrefix(lines, i);
    FoldIsTight(lines[..i], upper);
    ExtendsBuffer(Fold(lines[..i], upper), lines[i], upper);
  }

  lemma {:induction false} FoldPrefix(lines: seq<string>, i: nat, upper: Upper)
    requires 1 <= i < |lines|
    ensures Fold(lines[..i + 1], upper) == FoldLine(Fold(lines[..i], upper), lines[i], upper)
  {
    PrefixOfPrefix(lines, i);
  }

  lemma {:induction false} PrefixOfPrefix(lines: seq<string>, i: nat)
    requires i < |lines|
    ensures lines[..i + 1][..i] == lines[..i] && lines[..i + 1][i] == lines[i]
  {
  }

  /** A paragraph spelled out: each break alone decides what stands in its place. */
  function Spelled(lines: seq<string>, upper: Upper): string
    requires |lines| > 0
  {
    var k := |lines| - 1;
    if k == 0 then TrimEnd(lines[0])
    else Spelled(lines[..k], upper)
         + if Kept(lines, k, upper) then "\n" + TrimEnd(lines[k]) else GlueAt(lines, k) + Trim(lines[k])
  }

  /** On tight lines the buffer has nothing to trim. */
  lemma {:induction false} AddsToTight(acc: seq<string>, next: string, keep: bool, glue: string)
    requires |acc| > 0 && AllTight(acc) && !Blank(next)
    ensures JoinLines(AddLine(acc, next, keep, glue))
            == JoinLines(acc) + if keep then "\n" + TrimEnd(next) else glue + Trim(next)
  {
    var m := |acc| - 1;
    TightIsTrimmed(acc[m]);
    TrimmedIsTight(next);
    AddsToBuffer(acc, next, keep, glue);
    BufferEnds(acc[..m], acc[m]);
    LastApart(acc);
    JoinSnoc(acc[..m], acc[m]);
    Associates(JoinLines(acc), if keep then "\n" else glue, if keep then TrimEnd(next) else Trim(next));
  }

  /**
   What the trimmed and extended buffer comes to: the trimmed lines, with each break replaced by a
   newline, a space or nothing, as the two lines around it say.
   */
  lemma {:induction false} ParagraphIsSpelled(lines: seq<string>, upper: Upper)
    requires Run(lines) && !Fenced(lines)
    ensures JoinLines(Paragraph(lines, upper)) == Spelled(lines, upper)
  {
    FoldIsSpelled(lines, upper);
  }

  lemma {:induction false} FoldIsSpelled(lines: seq<string>, upper: Upper)
    requires Run(lines)
    ensures JoinLines(Fold(lines, upper)) == Spelled(lines, upper)
  {
    var k := |lines| - 1;
    if k > 0 {
      RunPrefix(lines, k);
      FoldIsSpelled(lines[..k], upper);
      FoldStep(lines, upper);
      AddsToTight(Fold(lines[..k], upper), lines[k], Kept(lines, k, upper), GlueAt(lines, k));
    }
  }

  method JoinAll(segments: seq<string>) returns (out: string)
    ensures out == JoinLines(segments)
  {
    out := "";
    if |segments| > 0 {
      out := segments[0];
      assert segments[..1] == [out];
      for i := 1 to |segments|
        invariant out == JoinLines(segments[..i])
      {
        assert segments[..i + 1] == segments[..i] + [segments[i]];
        JoinSnoc(segments[..i], segments[i]);
        out := out + "\n" + segments[i];
      }
      assert segments[..|segments|] == segments;
    }
  }

  /** Past the last line of the paragraph that starts at `start`. */
  method RunEnd(lines: seq<string>, start: nat) returns (i: nat)
    requires start < |lines| && !Blank(lines[start])
    ensures start < i <= |lines| && i - start == RunLength(lines[start..])
  {
    i := start;
    while i < |lines| && |Trim(lines[i])| > 0
      invariant start <= i <= |lines|
      invariant i - start + RunLength(lines[i..]) == RunLength(lines[start..])
    {
      RunGoesOn(lines, i);
      i := i + 1;
    }
    RunStops(lines, i);
    if i == start { RunGoesOn(lines, i); }
  }

  /** One segment and the line after it; `part` is the output lines it stands for. */
  method NextSegment(lines: seq<string>, start: nat, upper: Upper)
    returns (segment: string, i: nat, ghost part: seq<string>)
    requires Lines(lines) && start < |lines|
    ensures start < i <= |lines| && |part| > 0 && segment == JoinLines(part)
    ensures Output(lines[start..], upper) == part + Output(lines[i..], upper)
  {
    if |Trim(lines[start])| == 0 {
      BlankStep(lines, start, upper);
      segment, i, part := "", start + 1, [""];
    } else {
      i := RunEnd(lines, start);
      ParagraphStep(lines, start, i, upper);
      segment := RejoinParagraph(lines[start..i], upper);
      part := Paragraph(lines[start..i], upper);
    }
  }

  /** The lines are walked once; each segment is an emptied blank line or a rejoined paragraph. */
  method Segments(lines: seq<string>, upper: Upper) returns (segments: seq<string>)
    requires Lines(lines)
    ensures JoinLines(segments) == JoinLines(Output(lines, upper))
  {
    segments := [];
    ghost var done: seq<string> := [];
    var i := 0;
    while i < |lines|
      invariant 0 <= i <= |lines|
      invariant done + Output(lines[i..], upper) == Output(lines, upper)
      invariant JoinLines(segments) == JoinLines(done) && (|segments| == 0 <==> |done| == 0)
    {
      var start := i;
      var segment;
      ghost var part;
      segment, i, part := NextSegment(lines, start, upper);
      SegmentStep(lines, start, i, segments, done, segment, part, upper);
      segments := segments + [segment];
      done := done + part;
    }
    assert |lines[i..]| == 0 && done + [] == done;
  }

  method RejoinWrappedParagraphs(text: string, upper: Upper) returns (out: string)
    ensures out == Rejoined(text, upper)
  {
    if |text| == 0 {
      return "";
    }
    var trailingNewline := text[|text| - 1] == '\n';
    var lines := SplitLines(text);
    SplitMakesLines(text);
    var segments := Segments(lines, upper);
    out := JoinAll(segments);
    if trailingNewline { NewlineIsKept(text, upper); }
    if trailingNewline && !(|out| > 0 && out[|out| - 1] == '\n') {
      out := out + "\n";
    }
  }

  lemma {:induction false} SegmentStep(lines: seq<string>, start: nat, i: nat,
    segments: seq<string>, done: seq<string>, segment: string, part: seq<string>, upper: Upper)
    requires start < i <= |lines| && done + Output(lines[start..], upper) == Output(lines, upper)
    requires Output(lines[start..], upper) == part + Output(lines[i..], upper)
    requires JoinLines(segments) == JoinLines(done) && (|segments| == 0 <==> |done| == 0)
    requires |part| > 0 && segment == JoinLines(part)
    ensures (done + part) + Output(lines[i..], upper) == Output(lines, upper)
    ensures JoinLines(segments + [segment]) == JoinLines(done + part)
  {
    Regroup(done, part, Output(lines[i..], upper));
    SegmentJoins(segments, done, segment, part);
  }

  lemma {:induction false} ParagraphStep(lines: seq<string>, start: nat, i: nat, upper: Upper)
    requires Lines(lines) && start < i <= |lines|
    requires RunLength(lines[start..]) == i - start
    ensures Run(lines[start..i])
    ensures Output(lines[start..], upper) == Paragraph(lines[start..i], upper) + Output(lines[i..], upper)
  {
    var rest := lines[start..];
    assert rest[..i - start] == lines[start..i] && rest[i - start..] == lines[i..];
    RunOf(rest);
  }

  lemma {:induction false} BlankStep(lines: seq<string>, i: nat, upper: Upper)
    requires i < |lines| && Blank(lines[i])
    ensures Output(lines[i..], upper) == [""] + Output(lines[i + 1..], upper)
  {
    assert lines[i..][1..] == lines[i + 1..];
  }

  lemma {:induction false} Regroup(a: seq<string>, b: seq<string>, c: seq<string>)
    ensures a + (b + c) == (a + b) + c
  {
  }

  lemma {:induction false} RunStops(lines: seq<string>, i: nat)
    requires i <= |lines| && (i < |lines| ==> Blank(lines[i]))
    ensures RunLength(lines[i..]) == 0
  {
  }

  lemma {:induction false} RunGoesOn(lines: seq<string>, i: nat)
    requires i < |lines| && !Blank(lines[i])
    ensures RunLength(lines[i..]) == 1 + RunLength(lines[i + 1..])
  {
    assert lines[i..][1..] == lines[i + 1..];
  }

  lemma {:induction false} SegmentJoins(segments: seq<string>, done: seq<string>, segment: string, lines: seq<string>)
    requires JoinLines(segments) == JoinLines(done) && (|segments| == 0 <==> |done| == 0)
    requires |lines| > 0 && segment == JoinLines(lines)
    ensures JoinLines(segments + [segment]) == JoinLines(done + lines)
  {
    JoinSnoc(segments, segment);
    if |done| == 0 {
      assert done + lines == lines;
    } else {
      JoinConcat(done, lines);
    }
  }
}

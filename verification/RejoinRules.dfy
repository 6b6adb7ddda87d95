/** The rules by which a line break is kept or replaced, spelled out on the characters around it. */
module RejoinRules {
  import opened Wrappers
  import opened Text
  import opened Rejoin
  import opened RejoinLines
  import opened RejoinProofs

  /* ---------------------------------------------------------------- list markers */

  /** One of the nine marker characters, or a number with a full stop or a closing parenthesis. */
  predicate IsMark(m: string) {
    || m == "-" || m == "*" || m == ">" || m == "\U{2022}" || m == "\U{25CF}" || m == "\U{25C6}" || m == "\U{25C7}"
    || m == "\U{25AA}" || m == "\U{25AB}"
    || IsNumberMark(m)
  }

  predicate IsNumberMark(m: string) {
    |m| >= 2 && (m[|m| - 1] == '.' || m[|m| - 1] == ')') && forall i :: 0 <= i < |m| - 1 ==> '0' <= m[i] <= '9'
  }

  predicate IsBullet(s: string, m: string, c: char, rest: string) {
    IsMark(m) && IsWhitespace(c) && s == m + [c] + rest
  }

  lemma {:induction false} DigitRunStops(d: string, s: string)
    requires forall i :: 0 <= i < |d| ==> IsDigit(d[i])
    requires |s| == 0 || !IsDigit(s[0])
    ensures DigitRun(d + s) == |d|
  {
    if |d| == 0 {
      assert d + s == s;
    } else {
      assert (d + s)[1..] == d[1..] + s;
      DigitRunStops(d[1..], s);
    }
  }

  lemma {:induction false} DigitRunIsDigits(s: string)
    ensures forall i :: 0 <= i < DigitRun(s) ==> IsDigit(s[i])
  {
    if |s| > 0 && IsDigit(s[0]) {
      DigitRunIsDigits(s[1..]);
      forall i | 0 <= i < DigitRun(s) ensures IsDigit(s[i]) {
        if i > 0 { assert s[i] == s[1..][i - 1]; }
      }
    }
  }

  lemma {:induction false} MarkLength(m: string, s: string)
    requires IsMark(m)
    ensures MarkerLength(m + s) == Some(|m|)
  {
    assert (m + s)[0] == m[0];
    if IsNumberMark(m) {
      var d, stop := m[..|m| - 1], [m[|m| - 1]];
      assert m + s == d + (stop + s);
      DigitRunStops(d, stop + s);
      assert (m + s)[|d|] == stop[0];
      assert IsDigit(m[0]) && !IsMarker(m[0]);
    }
  }

  lemma {:induction false} MarkerIsMark(s: string)
    requires MarkerLength(s).Some?
    ensures IsMark(s[..MarkerLength(s).value])
  {
    var n := MarkerLength(s).value;
    if IsMarker(s[0]) {
      assert s[..1] == [s[0]];
    } else {
      DigitRunIsDigits(s);
      assert IsNumberMark(s[..n]);
    }
  }

  /** A line is a list item exactly if it is a mark, a white space and anything. */
  lemma {:induction false} BulletIff(s: string)
    ensures StartsWithBullet(s) <==> exists m, c, rest :: IsBullet(s, m, c, rest)
  {
    if StartsWithBullet(s) {
      var n := MarkerLength(s).value;
      MarkerIsMark(s);
      assert s == s[..n] + [s[n]] + s[n + 1..];
      assert IsBullet(s, s[..n], s[n], s[n + 1..]);
    }
    if m, c, rest :| IsBullet(s, m, c, rest) {
      MarkLength(m, [c] + rest);
      assert s == m + ([c] + rest) && s[|m|] == c;
    }
  }

  /* ---------------------------------------------------------------- wide characters */

  predicate In(c: char, first: int, last: int) {
    first <= c as int <= last
  }

  /** Wide are Hangul, the radicals, kana, the ideographs, Yi and the full-width forms, and nothing else. */
  lemma {:induction false} WideIff(c: char)
    ensures IsWide(c) <==>
            || In(c, 0x1100, 0x115F) || In(c, 0x2E80, 0x303E) || In(c, 0x3041, 0x33FF) || In(c, 0x3400, 0x4DBF)
            || In(c, 0x4E00, 0x9FFF) || In(c, 0xA000, 0xA4CF) || In(c, 0xAC00, 0xD7A3) || In(c, 0xF900, 0xFAFF)
            || In(c, 0xFE30, 0xFE4F) || In(c, 0xFF00, 0xFF60) || In(c, 0xFFE0, 0xFFE6)
            || In(c, 0x2_0000, 0x2_FFFD) || In(c, 0x3_0000, 0x3_FFFD)
  {
    forall k | 0 <= k < 13 && WIDE[k].0 <= c as int <= WIDE[k].1 ensures IsWide(c) {
    }
    assert In(c, 0x1100, 0x115F) ==> WIDE[0].0 <= c as int <= WIDE[0].1;
    assert In(c, 0x2E80, 0x303E) ==> WIDE[1].0 <= c as int <= WIDE[1].1;
    assert In(c, 0x3041, 0x33FF) ==> WIDE[2].0 <= c as int <= WIDE[2].1;
    assert In(c, 0x3400, 0x4DBF) ==> WIDE[3].0 <= c as int <= WIDE[3].1;
    assert In(c, 0x4E00, 0x9FFF) ==> WIDE[4].0 <= c as int <= WIDE[4].1;
    assert In(c, 0xA000, 0xA4CF) ==> WIDE[5].0 <= c as int <= WIDE[5].1;
    assert In(c, 0xAC00, 0xD7A3) ==> WIDE[6].0 <= c as int <= WIDE[6].1;
    assert In(c, 0xF900, 0xFAFF) ==> WIDE[7].0 <= c as int <= WIDE[7].1;
    assert In(c, 0xFE30, 0xFE4F) ==> WIDE[8].0 <= c as int <= WIDE[8].1;
    assert In(c, 0xFF00, 0xFF60) ==> WIDE[9].0 <= c as int <= WIDE[9].1;
    assert In(c, 0xFFE0, 0xFFE6) ==> WIDE[10].0 <= c as int <= WIDE[10].1;
    assert In(c, 0x2_0000, 0x2_FFFD) ==> WIDE[11].0 <= c as int <= WIDE[11].1;
    assert In(c, 0x3_0000, 0x3_FFFD) ==> WIDE[12].0 <= c as int <= WIDE[12].1;
  }

  /* ---------------------------------------------------------------- one break */

  /** A line that ends in `p`, white space aside, and one that begins with `n`. */
  ghost predicate Around(prev: string, front: string, p: char, next: string, indent: string, head: string) {
    && !IsWhitespace(p) && |head| > 0 && !IsWhitespace(head[0]) && AllSpace(indent)
    && (exists trail :: AllSpace(trail) && prev == front + [p] + trail)
    && next == indent + head
  }

  /** The break stays before a list item, before a fence, and after a sentence if the next one begins as one. */
  ghost predicate Stays(p: char, head: string, upper: Upper)
    requires |head| > 0
  {
    || (exists m, c, rest :: IsBullet(head, m, c, rest))
    || (|head| >= 3 && head[..3] == "```")
    || ((p == '.' || p == '!' || p == '?' || p == '\U{3002}' || p == '\U{FF01}' || p == '\U{FF1F}')
        && (upper(head[0]) || IsWide(head[0])))
  }

  /** What decides about a break are the last visible character before it and the text behind it. */
  lemma {:induction false} BreakRule(prev: string, front: string, p: char, next: string, indent: string, head: string,
                                     upper: Upper)
    requires Around(prev, front, p, next, indent, head)
    ensures KeepBreak(LastNonSpace(prev), TrimStart(next), upper) <==> Stays(p, head, upper)
    ensures Glue(LastNonSpace(prev), TrimStart(next)) == if IsWide(p) && IsWide(head[0]) then "" else " "
    ensures TrimEnd(prev) == front + [p] && TrimStart(next) == head
  {
    var trail :| AllSpace(trail) && prev == front + [p] + trail;
    TrimEndOf(front + [p], trail);
    TrimStartOf(indent, head);
    BulletIff(head);
    FenceIff(head);
  }

  lemma {:induction false} FenceIff(s: string)
    ensures StartsWithFence(s) <==> |s| >= 3 && s[..3] == "```"
  {
    if |s| >= 3 { assert s[..3] == [s[0], s[1], s[2]]; }
  }

  /** In a paragraph each break follows the rule. */
  lemma {:induction false} KeptRule(lines: seq<string>, i: nat, front: string, p: char, indent: string, head: string,
                                    upper: Upper)
    requires 1 <= i < |lines| && Around(lines[i - 1], front, p, lines[i], indent, head)
    ensures Kept(lines, i, upper) <==> Stays(p, head, upper)
    ensures GlueAt(lines, i) == if IsWide(p) && IsWide(head[0]) then "" else " "
  {
    BreakRule(lines[i - 1], front, p, lines[i], indent, head, upper);
  }

  ghost predicate OpensFence(l: string, indent: string, rest: string) {
    AllSpace(indent) && l == indent + ("```" + rest)
  }

  /** A paragraph of several lines with a fence in it keeps all its breaks and indents. */
  lemma {:induction false} FencedIsLeftAlone(lines: seq<string>, i: nat, indent: string, rest: string, upper: Upper)
    requires |lines| > 1 && i < |lines| && OpensFence(lines[i], indent, rest)
    ensures |Paragraph(lines, upper)| == |lines|
    ensures forall k :: 0 <= k < |lines| ==> Paragraph(lines, upper)[k] == TrimEnd(lines[k])
  {
    TrimStartOf(indent, "```" + rest);
    assert lines[i] in lines && StartsWithFence(TrimStart(lines[i]));
  }

  /* ---------------------------------------------------------------- two lines */

  lemma {:induction false} NotBlankOf(a: string, c: char, b: string)
    requires !IsWhitespace(c)
    ensures !Blank(a + [c] + b)
  {
    var indent, core, trail := CoreOf(a + [c] + b);
    assert (a + [c] + b)[|a|] == c;
  }

  lemma {:induction false} TwoLinesOutput(prev: string, next: string, upper: Upper)
    requires !Blank(prev) && !Blank(next)
    ensures Output([prev, next], upper) == Paragraph([prev, next], upper)
  {
    var lines := [prev, next];
    assert lines[1..] == [next] && [next][1..] == [];
    assert RunLength(lines) == 2 && lines[..2] == lines && lines[2..] == [];
  }

  lemma {:induction false} TwoLinesFold(prev: string, next: string, upper: Upper)
    ensures Fold([prev, next], upper) == FoldLine([TrimEnd(prev)], next, upper)
  {
    assert [prev, next][..1] == [prev];
  }

  lemma {:induction false} JoinTwo(a: string, b: string)
    ensures JoinLines([a, b]) == a + ("\n" + b) && JoinLines([a]) == a
  {
    assert [a, b][1..] == [b];
  }

  /** Two lines, end to end: the break between them goes, as the rule says, into a newline, a space or nothing. */
  lemma {:induction false} TwoLinesRejoin(prev: string, front: string, p: char, next: string, indent: string,
                                          head: string, upper: Upper)
    requires Around(prev, front, p, next, indent, head) && Flat(prev) && Flat(next)
    requires !StartsWithFence(TrimStart(prev)) && !StartsWithFence(head)
    ensures Rejoined(prev + ("\n" + next), upper) ==
            front + [p] + (if Stays(p, head, upper) then "\n" + TrimEnd(next)
                           else (if IsWide(p) && IsWide(head[0]) then "" else " ") + TrimEnd(head))
  {
    var lines := [prev, next];
    JoinTwo(prev, next);
    SplitUndoesJoin(lines);
    var trail :| AllSpace(trail) && prev == front + [p] + trail;
    NotBlankOf(front, p, trail);
    assert next == indent + [head[0]] + head[1..];
    NotBlankOf(indent, head[0], head[1..]);
    TwoLinesOutput(prev, next, upper);
    TwoLinesParagraph(prev, front, p, next, indent, head, upper);
  }

  lemma {:induction false} TwoLinesParagraph(prev: string, front: string, p: char, next: string, indent: string,
                                             head: string, upper: Upper)
    requires Around(prev, front, p, next, indent, head)
    requires !StartsWithFence(TrimStart(prev)) && !StartsWithFence(head)
    ensures JoinLines(Paragraph([prev, next], upper)) ==
            front + [p] + (if Stays(p, head, upper) then "\n" + TrimEnd(next)
                           else (if IsWide(p) && IsWide(head[0]) then "" else " ") + TrimEnd(head))
  {
    BreakRule(prev, front, p, next, indent, head, upper);
    ParagraphOfTwo(prev, front + [p], next, head, upper);
  }

  lemma {:induction false} ParagraphOfTwo(prev: string, first: string, next: string, head: string, upper: Upper)
    requires TrimEnd(prev) == first && |first| > 0 && TrimStart(next) == head
    requires !StartsWithFence(TrimStart(prev)) && !StartsWithFence(head)
    ensures JoinLines(Paragraph([prev, next], upper)) ==
            first + if KeepBreak(LastNonSpace(prev), head, upper) then "\n" + TrimEnd(next)
                    else Glue(LastNonSpace(prev), head) + TrimEnd(head)
  {
    TrimmedTail(prev, first);
    TwoLinesFold(prev, next, upper);
    JoinAdded(first, next, head, KeepBreak(LastNonSpace(first), head, upper), Glue(LastNonSpace(first), head));
    assert !Fenced([prev, next]);
  }

  lemma {:induction false} JoinAdded(first: string, next: string, head: string, keep: bool, glue: string)
    requires TrimEnd(first) == first && TrimStart(next) == head
    ensures JoinLines(AddLine([first], next, keep, glue))
            == first + if keep then "\n" + TrimEnd(next) else glue + TrimEnd(head)
  {
    if keep {
      assert [first] + [TrimEnd(next)] == [first, TrimEnd(next)];
      JoinTwo(first, TrimEnd(next));
    } else {
      assert [first][..0] + [first + glue + TrimEnd(head)] == [first + glue + TrimEnd(head)];
      JoinTwo(first + glue + TrimEnd(head), "");
      assert first + glue + TrimEnd(head) == first + (glue + TrimEnd(head));
    }
  }

  lemma {:induction false} TrimmedTail(prev: string, first: string)
    requires TrimEnd(prev) == first && |first| > 0
    ensures TrimEnd(first) == first && LastNonSpace(first) == LastNonSpace(prev)
  {
    TrimEndOf(first, "");
    assert first + "" == first;
  }
}

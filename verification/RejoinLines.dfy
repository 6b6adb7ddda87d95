/**
 Lines, trimming and white space: the facts the proofs about rejoining rest on. A line is an indent, a
 core and trailing white space; only the core counts. Texts and lines are two views of the same
 thing: splitting at newlines and joining with newlines undo each other as long as no line holds a
 newline itself. What is conserved is the sequence of characters that are not white space.
 */
module RejoinLines {
  import opened Text
  import opened Rejoin

  /* ---------------------------------------------------------------- trimming */

  ghost predicate AllSpace(s: string) {
    forall i :: 0 <= i < |s| ==> IsWhitespace(s[i])
  }

  lemma {:induction false} TrimStartParts(s: string) returns (ws: string)
    ensures AllSpace(ws) && s == ws + TrimStart(s)
  {
    if |s| > 0 && IsWhitespace(s[0]) {
      var rest := TrimStartParts(s[1..]);
      ws := [s[0]] + rest;
      assert s == [s[0]] + s[1..];
    } else {
      ws := "";
    }
  }

  lemma {:induction false} TrimEndParts(s: string) returns (ws: string)
    ensures AllSpace(ws) && s == TrimEnd(s) + ws
  {
    if |s| > 0 && IsWhitespace(s[|s| - 1]) {
      var n := |s| - 1;
      var rest := TrimEndParts(s[..n]);
      ws := rest + [s[n]];
      assert s == s[..n] + [s[n]];
    } else {
      ws := "";
    }
  }

  /** A text that ends in a non-space is left alone; spaces behind it go. */
  lemma {:induction false} TrimEndOf(s: string, ws: string)
    requires AllSpace(ws) && (|s| == 0 || !IsWhitespace(s[|s| - 1]))
    ensures TrimEnd(s + ws) == s
  {
    if |ws| == 0 {
      assert s + ws == s;
    } else {
      assert (s + ws)[..|s + ws| - 1] == s + ws[..|ws| - 1];
      TrimEndOf(s, ws[..|ws| - 1]);
    }
  }

  lemma {:induction false} TrimStartOf(ws: string, s: string)
    requires AllSpace(ws) && (|s| == 0 || !IsWhitespace(s[0]))
    ensures TrimStart(ws + s) == s
  {
    if |ws| == 0 {
      assert ws + s == s;
    } else {
      assert (ws + s)[1..] == ws[1..] + s;
      TrimStartOf(ws[1..], s);
    }
  }

  /** A line that is not blank: indent, core, trailing space; the core starts and ends in a non-space. */
  lemma {:induction false} CoreOf(l: string) returns (indent: string, core: string, trail: string)
    ensures AllSpace(indent) && AllSpace(trail) && l == indent + core + trail
    ensures core == Trim(l) == TrimStart(TrimEnd(l))
    ensures |core| > 0 ==> TrimEnd(l) == indent + core && TrimStart(l) == core + trail
    ensures |core| == 0 <==> Blank(l)
    ensures |core| > 0 ==> !IsWhitespace(core[0]) && !IsWhitespace(core[|core| - 1])
  {
    indent := TrimStartParts(l);
    var s := TrimStart(l);
    trail := TrimEndParts(s);
    core := TrimEnd(s);
    assert l == indent + core + trail;
    if |core| == 0 {
      assert l == (indent + trail);
      TrimEndOf("", indent + trail);
      assert "" + (indent + trail) == indent + trail;
    } else {
      assert core[0] == s[0];
      assert l == (indent + core) + trail;
      TrimEndOf(indent + core, trail);
      TrimStartOf(indent, core);
    }
  }

  /* ---------------------------------------------------------------- what is conserved */

  /** The non-whitespace characters, in order. */
  function NonSpace(s: string): string {
    if |s| == 0 then "" else (if IsWhitespace(s[0]) then "" else [s[0]]) + NonSpace(s[1..])
  }

  lemma {:induction false} NonSpaceConcat(a: string, b: string)
    ensures NonSpace(a + b) == NonSpace(a) + NonSpace(b)
  {
    if |a| == 0 {
      assert a + b == b;
    } else {
      assert (a + b)[1..] == a[1..] + b;
      NonSpaceConcat(a[1..], b);
    }
  }

  lemma {:induction false} SpaceIsNothing(ws: string)
    requires AllSpace(ws)
    ensures |NonSpace(ws)| == 0
  {
    if |ws| > 0 { SpaceIsNothing(ws[1..]); }
  }

  lemma {:induction false} TrimConserves(s: string)
    ensures NonSpace(TrimStart(s)) == NonSpace(s) && NonSpace(TrimEnd(s)) == NonSpace(s)
  {
    var a := TrimStartParts(s);
    var b := TrimEndParts(s);
    SpaceIsNothing(a);
    SpaceIsNothing(b);
    NonSpaceConcat(a, TrimStart(s));
    NonSpaceConcat(TrimEnd(s), b);
  }

  function NonSpaceOf(ls: seq<string>): string {
    if |ls| == 0 then "" else NonSpace(ls[0]) + NonSpaceOf(ls[1..])
  }

  lemma {:induction false} NonSpaceOfConcat(a: seq<string>, b: seq<string>)
    ensures NonSpaceOf(a + b) == NonSpaceOf(a) + NonSpaceOf(b)
  {
    if |a| == 0 {
      assert a + b == b;
    } else {
      assert (a + b)[1..] == a[1..] + b;
      NonSpaceOfConcat(a[1..], b);
    }
  }

  lemma {:induction false} JoinConserves(ls: seq<string>)
    ensures NonSpace(JoinLines(ls)) == NonSpaceOf(ls)
  {
    if |ls| > 1 {
      JoinConserves(ls[1..]);
      LineConserves(ls[0], JoinLines(ls[1..]));
    } else if |ls| == 1 {
      assert NonSpaceOf(ls[1..]) == "";
    }
  }

  lemma {:induction false} LineConserves(l: string, rest: string)
    ensures NonSpace(l + ("\n" + rest)) == NonSpace(l) + NonSpace(rest)
  {
    NonSpaceConcat(l, "\n" + rest);
    NonSpaceConcat("\n", rest);
    SpaceIsNothing("\n");
  }

  /* ---------------------------------------------------------------- splitting and joining */

  /** No newline inside. */
  ghost predicate Flat(l: string) {
    |l| == 0 || (l[0] != '\n' && Flat(l[1..]))
  }

  ghost predicate Lines(ls: seq<string>) {
    forall i :: 0 <= i < |ls| ==> Flat(ls[i])
  }

  lemma {:induction false} FlatConcat(a: string, b: string)
    ensures Flat(a + b) <==> Flat(a) && Flat(b)
  {
    if |a| == 0 {
      assert a + b == b;
    } else {
      assert (a + b)[1..] == a[1..] + b;
      FlatConcat(a[1..], b);
    }
  }

  lemma {:induction false} TrimIsFlat(l: string)
    requires Flat(l)
    ensures Flat(TrimStart(l)) && Flat(TrimEnd(l))
  {
    var a := TrimStartParts(l);
    FlatConcat(a, TrimStart(l));
    var b := TrimEndParts(l);
    FlatConcat(TrimEnd(l), b);
  }

  lemma {:induction false} SplitMakesLines(t: string)
    ensures Lines(SplitLines(t)) && JoinLines(SplitLines(t)) == t
  {
    if |t| > 0 {
      SplitMakesLines(t[1..]);
      var rest := SplitLines(t[1..]);
      assert t == [t[0]] + t[1..];
      if t[0] == '\n' {
        assert SplitLines(t)[1..] == rest;
      } else {
        var ls := SplitLines(t);
        assert ls[1..] == rest[1..];
        if |rest| > 1 {
          assert ([t[0]] + rest[0]) + ("\n" + JoinLines(rest[1..]))
                 == [t[0]] + (rest[0] + ("\n" + JoinLines(rest[1..])));
        }
      }
    }
  }

  lemma {:induction false} SplitPrefix(l: string, k: string)
    requires Flat(l)
    ensures SplitLines(l + k) == [l + SplitLines(k)[0]] + SplitLines(k)[1..]
  {
    var ls := SplitLines(k);
    if |l| == 0 {
      assert l + k == k && l + ls[0] == ls[0];
      assert ls == [ls[0]] + ls[1..];
    } else {
      assert (l + k)[1..] == l[1..] + k;
      SplitPrefix(l[1..], k);
      assert [l[0]] + (l[1..] + SplitLines(k)[0]) == l + SplitLines(k)[0];
    }
  }

  /** Joining loses nothing: splitting gives the lines back. */
  lemma {:induction false} SplitUndoesJoin(ls: seq<string>)
    requires Lines(ls) && |ls| > 0
    ensures SplitLines(JoinLines(ls)) == ls
  {
    var l := ls[0];
    assert l + "" == l;
    if |ls| == 1 {
      SplitPrefix(l, "");
      assert ls == [l];
    } else {
      SplitUndoesJoin(ls[1..]);
      SplitLine(l, JoinLines(ls[1..]));
      assert ls == [l] + ls[1..];
    }
  }

  lemma {:induction false} SplitLine(l: string, rest: string)
    requires Flat(l)
    ensures SplitLines(l + ("\n" + rest)) == [l] + SplitLines(rest)
  {
    var k := "\n" + rest;
    SplitPrefix(l, k);
    assert k[1..] == rest && l + "" == l;
    assert SplitLines(k) == [""] + SplitLines(rest);
    assert SplitLines(k)[1..] == SplitLines(rest);
  }

  lemma {:induction false} JoinConcat(a: seq<string>, b: seq<string>)
    requires |a| > 0 && |b| > 0
    ensures JoinLines(a + b) == JoinLines(a) + "\n" + JoinLines(b)
  {
    if |a| == 1 {
      assert (a + b)[1..] == b;
    } else {
      assert (a + b)[1..] == a[1..] + b;
      JoinConcat(a[1..], b);
    }
  }
}

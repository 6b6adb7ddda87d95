/** When the lookup by key crashes: exactly on a feed cut just after a backslash inside a string. */
module FeedCrash {
  import opened Text
  import opened FeedScanner

  datatype Lex = Outside | InString | Escaped

  /** Where a character-by-character reader of string literals stands at the end of `t`. */
  function LexEnd(t: string, st: Lex): Lex {
    if t == "" then st
    else
      LexEnd(t[1..],
             match st
             case Outside => if t[0] == '"' then InString else Outside
             case InString => if t[0] == '"' then Outside else if t[0] == '\\' then Escaped else InString
             case Escaped => InString)
  }

  lemma {:induction false} SkipFromLex(t: string)
    ensures SkipFrom(t) > |t| ==> LexEnd(t, InString) == Escaped
    ensures SkipFrom(t) <= |t| ==> LexEnd(t, InString) == LexEnd(t[SkipFrom(t)..], Outside)
                                   || (SkipFrom(t) == |t| && LexEnd(t, InString) == InString)
  {
    if t != "" {
      if t[0] == '\\' && |t| >= 2 {
        SkipFromLex(t[2..]);
        assert t[1..][1..] == t[2..];
        if SkipFrom(t) <= |t| { assert t[SkipFrom(t)..] == t[2..][SkipFrom(t[2..])..]; }
      } else if t[0] != '\\' && t[0] != '"' {
        SkipFromLex(t[1..]);
        if SkipFrom(t) <= |t| { assert t[SkipFrom(t)..] == t[1..][SkipFrom(t[1..])..]; }
      }
    }
  }

  /**
   The lookup crashes only on a text that ends just after a backslash inside a string, and on
   such a text it never reports the key as absent: it crashes unless it has found the key before.
   */
  lemma {:induction false} CrashesOnlyOnCutEscape(t: string, depth: int, key: string)
    ensures TopLevel(t, depth, key) == Crash ==> LexEnd(t, Outside) == Escaped
    ensures LexEnd(t, Outside) == Escaped ==> TopLevel(t, depth, key) != Absent
    decreases |t|
  {
    if t == "" {
    } else if t[0] == '"' {
      SkipFromLex(t[1..]);
      var n := LiteralLength(t);
      if n <= |t| {
        assert t[n..] == t[1..][n - 1..];
        CrashesOnlyOnCutEscape(t[n..], depth, key);
      }
    } else {
      CrashesOnlyOnCutEscape(t[1..], if t[0] == '{' || t[0] == '[' then depth + 1
                                     else if t[0] == '}' || t[0] == ']' then depth - 1 else depth, key);
    }
  }

  lemma {:induction false} LongKeyIsNotFound(t: string, depth: int, key: string)
    requires |key| > |t|
    ensures !TopLevel(t, depth, key).Found?
    decreases |t|
  {
    if t == "" {
    } else if t[0] == '"' {
      if LiteralLength(t) <= |t| { LongKeyIsNotFound(t[LiteralLength(t)..], depth, key); }
    } else {
      LongKeyIsNotFound(t[1..], if t[0] == '{' || t[0] == '[' then depth + 1
                                else if t[0] == '}' || t[0] == ']' then depth - 1 else depth, key);
    }
  }

  /** Some lookup crashes exactly on a cut text. */
  lemma {:induction false} SomeLookupCrashesIffCut(t: string)
    ensures (exists key :: TopLevel(t, 0, key) == Crash) <==> LexEnd(t, Outside) == Escaped
  {
    if key :| TopLevel(t, 0, key) == Crash {
      CrashesOnlyOnCutEscape(t, 0, key);
    }
    if LexEnd(t, Outside) == Escaped {
      var key := seq(|t| + 1, _ => 'k');
      LongKeyIsNotFound(t, 0, key);
      CrashesOnlyOnCutEscape(t, 0, key);
      assert TopLevel(t, 0, key) == Crash;
    }
  }

  /* ---------------------------------------------------------------- which lookups crash */

  /** `t` without the string literal it is cut in, if it is cut just after a backslash. */
  function Complete(t: string): (r: string)
    ensures |r| <= |t| && r == t[..|r|]
    decreases |t|
  {
    if |t| == 0 then ""
    else if t[0] == '"' then
      var n := LiteralLength(t);
      if n > |t| then ""
      else
        assert t == t[..n] + t[n..];
        t[..n] + Complete(t[n..])
    else
      assert t == [t[0]] + t[1..];
      [t[0]] + Complete(t[1..])
  }

  /** A literal that ends before the text does is read alike whatever stands behind it. */
  lemma {:induction false} SkipFromPrefix(u: string, rest: string, more: string)
    requires rest != "" && SkipFrom(u + rest) == |u|
    ensures SkipFrom(u + more) == |u|
  {
    assert u == "" ==> u + rest == rest;
    if u == "" {
    } else if u[0] == '\\' {
      if |u| >= 2 {
        assert (u + rest)[2..] == u[2..] + rest && (u + more)[2..] == u[2..] + more;
        SkipFromPrefix(u[2..], rest, more);
      }
    } else if u[0] != '"' {
      assert (u + rest)[1..] == u[1..] + rest && (u + more)[1..] == u[1..] + more;
      SkipFromPrefix(u[1..], rest, more);
    }
  }

  lemma {:induction false} LiteralLengthPrefix(t: string, more: string)
    requires t != "" && LiteralLength(t) < |t|
    ensures var n := LiteralLength(t); LiteralLength(t[..n] + more) == n
  {
    var n := LiteralLength(t);
    var u := t[1..n];
    assert t[1..] == u + t[n..];
    SkipFromPrefix(u, t[n..], more);
    assert (t[..n] + more)[1..] == u + more;
  }

  /** Looking past white space for a colon finds the same in both. */
  lemma {:induction false} SameColon(s: string)
    ensures var a, b := TrimStart(s), TrimStart(Complete(s));
            (a != "" && a[0] == ':') <==> (b != "" && b[0] == ':')
    decreases |s|
  {
    WhitespaceIsNoQuote();
    if s != "" && IsWhitespace(s[0]) {
      SameColon(s[1..]);
      assert Complete(s)[1..] == Complete(s[1..]);
    } else if s != "" && s[0] == '"' && LiteralLength(s) <= |s| {
      assert Complete(s)[0] == '"';
    }
  }

  lemma {:induction false} WhitespaceIsNoQuote()
    ensures !IsWhitespace('"') && !IsWhitespace(':')
  {
  }

  /** The literal at the start of a text reads alike in its complete part, key test included. */
  lemma {:induction false} SameKeyValue(t: string, key: string)
    requires t != "" && t[0] == '"' && LiteralLength(t) <= |t|
    ensures
      var n, c := LiteralLength(t), Complete(t);
      c != "" && c[0] == '"' && LiteralLength(c) == n <= |c| && c[n..] == Complete(t[n..])
      && (KeyValue(t, n, key).Some? <==> KeyValue(c, n, key).Some?)
  {
    var n, c := LiteralLength(t), Complete(t);
    if n < |t| {
      LiteralLengthPrefix(t, Complete(t[n..]));
    } else {
      assert t[n..] == "" && t[..n] + "" == t;
    }
    assert c == t[..n] + Complete(t[n..]);
    assert c[n..] == Complete(t[n..]);
    if n > 1 { assert c[1..n - 1] == t[1..n - 1]; }
    SameColon(t[n..]);
  }

  /**
   Per key, and checkable before the call: the lookup crashes exactly on a cut text whose complete
   part does not hold the key.
   */
  lemma {:induction false} CrashesIffCutBeforeKey(t: string, depth: int, key: string)
    ensures TopLevel(t, depth, key) == Crash
            <==> LexEnd(t, Outside) == Escaped && TopLevel(Complete(t), depth, key) == Absent
    ensures TopLevel(Complete(t), depth, key) != Crash
    decreases |t|
  {
    if t == "" {
    } else if t[0] == '"' {
      SkipFromLex(t[1..]);
      var n := LiteralLength(t);
      if n <= |t| {
        assert t[n..] == t[1..][n - 1..];
        SameKeyValue(t, key);
        CrashesIffCutBeforeKey(t[n..], depth, key);
      }
    } else {
      assert Complete(t)[1..] == Complete(t[1..]);
      CrashesIffCutBeforeKey(t[1..], if t[0] == '{' || t[0] == '[' then depth + 1
                                     else if t[0] == '}' || t[0] == ']' then depth - 1 else depth, key);
    }
  }

  /** A feed cut inside its first key. */
  lemma {:induction false} CutKeyCrashes()
    ensures TopLevel("{\"a\\", 0, "k") == Crash
  {
    var t := "{\"a\\";
    assert t[1..] == "\"a\\" && t[1..][1..] == "a\\" && "a\\"[1..] == "\\";
    assert SkipFrom("\\") == 2 && SkipFrom("a\\") == 3;
    assert LiteralLength(t[1..]) == 4;
  }
}

/**
 The hand-written feed scanner of src/cc_usage.rs.

 The scanner is specified on the text still to be read, so that "scanning a value" can be
 stated as: what remains is exactly what follows the value.
 */
module FeedScanner {
  import opened Wrappers
  import opened Text

  /* ---------------------------------------------------------------- the scanner */

  /** How far `skip_string` advances past an opening quote; beyond `|t|` when the text ends just after a backslash. */
  function SkipFrom(t: string): (n: nat)
    ensures t != "" ==> n >= 1
    ensures n <= |t| + 1
  {
    if t == "" then 0
    else if t[0] == '\\' then (if |t| == 1 then 2 else 2 + SkipFrom(t[2..]))
    else if t[0] == '"' then 1
    else 1 + SkipFrom(t[1..])
  }

  /** Length of the string literal `t` starts with, quotes included. */
  function LiteralLength(t: string): (n: nat)
    requires t != ""
    ensures 1 <= n <= |t| + 1 && (|t| > 1 ==> n >= 2)
  {
    1 + SkipFrom(t[1..])
  }

  /**
   The objects `objects_in_array` still returns with `t` left to read at nesting `depth`;
   `from` is the text from the last recorded object start on.
   */
  function Objects(t: string, depth: int, from: string): seq<string>
    requires |t| <= |from|
    decreases |t|
  {
    if |t| == 0 then []
    else if t[0] == '"' then
      var n := LiteralLength(t);
      if n >= |t| then [] else Objects(t[n..], depth, from)
    else if t[0] == '{' || t[0] == '[' then
      Objects(t[1..], depth + 1, if depth == 1 && t[0] == '{' then t else from)
    else if t[0] == '}' || t[0] == ']' then
      if depth == 2 && t[0] == '}' then [from[..|from| - |t| + 1]] + Objects(t[1..], 1, from)
      else if depth == 1 then []
      else Objects(t[1..], depth - 1, from)
    else Objects(t[1..], depth, from)
  }

  /** `Crash` is the out-of-range slice of a body cut just after a backslash inside a string. */
  datatype Outcome = Absent | Found(text: string) | Crash

  /** What follows the colon, when the literal of length `n` that `t` starts with is `key` and a colon follows it. */
  function KeyValue(t: string, n: nat, key: string): Option<string>
    requires t != "" && n == LiteralLength(t) <= |t|
  {
    var after := TrimStart(t[n..]);
    if after != "" && after[0] == ':' && t[1..n - 1] == key then Some(TrimStart(after[1..])) else None
  }

  /** What `top_level_value` returns with `t` left to read at nesting `depth`. */
  function TopLevel(t: string, depth: int, key: string): Outcome
    decreases |t|
  {
    if t == "" then Absent
    else if t[0] == '"' then
      var n := LiteralLength(t);
      if n > |t| then Crash
      else if depth == 1 && KeyValue(t, n, key).Some? then Found(KeyValue(t, n, key).value)
      else TopLevel(t[n..], depth, key)
    else if t[0] == '{' || t[0] == '[' then TopLevel(t[1..], depth + 1, key)
    else if t[0] == '}' || t[0] == ']' then TopLevel(t[1..], depth - 1, key)
    else TopLevel(t[1..], depth, key)
  }

  /* ---------------------------------------------------------------- the loops */

  method SkipString(b: string, i: nat) returns (j: nat)
    requires i < |b| && b[i] == '"'
    ensures j == i + LiteralLength(b[i..])
  {
    j := i + 1;
    while j < |b|
      invariant i + 1 <= j <= |b| + 1
      invariant j <= |b| ==> j + SkipFrom(b[j..]) == i + 1 + SkipFrom(b[i + 1..])
      invariant j == |b| + 1 ==> j == i + 1 + SkipFrom(b[i + 1..])
    {
      if b[j] == '\\' {
        if j + 2 <= |b| { assert b[j..][2..] == b[j + 2..]; }
        j := j + 2;
      } else if b[j] == '"' {
        assert b[i..][1..] == b[i + 1..];
        return j + 1;
      } else {
        assert b[j..][1..] == b[j + 1..];
        j := j + 1;
      }
    }
    assert b[i..][1..] == b[i + 1..];
  }

  lemma {:induction false} DropDrop(s: string, i: nat, n: nat)
    requires i + n <= |s|
    ensures s[i..][n..] == s[i + n..]
  {
  }

  /** What is still returned from position `i` on; `start` is where the last recorded object starts. */
  function Left(s: string, i: nat, depth: int, start: nat): seq<string>
    requires start <= i && start <= |s|
  {
    if i <= |s| then Objects(s[i..], depth, s[start..]) else []
  }

  lemma {:induction false} LeftAtQuote(s: string, i: nat, depth: int, start: nat)
    requires start <= i < |s| && s[i] == '"'
    ensures Left(s, i, depth, start) == Left(s, i + LiteralLength(s[i..]), depth, start)
  {
    if LiteralLength(s[i..]) <= |s| - i { DropDrop(s, i, LiteralLength(s[i..])); }
  }

  lemma {:induction false} LeftAtOpen(s: string, i: nat, depth: int, start: nat)
    requires start <= i < |s| && (s[i] == '{' || s[i] == '[')
    ensures Left(s, i, depth, start) == Left(s, i + 1, depth + 1, if depth == 1 && s[i] == '{' then i else start)
  {
    DropDrop(s, i, 1);
  }

  lemma {:induction false} LeftAtClose(s: string, i: nat, depth: int, start: nat)
    requires start <= i < |s| && (s[i] == '}' || s[i] == ']')
    ensures Left(s, i, depth, start) ==
            if depth == 1 then []
            else if depth == 2 && s[i] == '}' then [s[start..i + 1]] + Left(s, i + 1, 1, start)
            else Left(s, i + 1, depth - 1, start)
  {
    DropDrop(s, i, 1);
    assert s[start..][..i + 1 - start] == s[start..i + 1];
  }

  lemma {:induction false} LeftElsewhere(s: string, i: nat, depth: int, start: nat)
    requires start <= i < |s| && s[i] !in "\"{}[]"
    ensures Left(s, i, depth, start) == Left(s, i + 1, depth, start)
  {
    DropDrop(s, i, 1);
  }

  lemma {:induction false} Regroup(a: seq<string>, b: seq<string>, c: seq<string>)
    ensures a + (b + c) == (a + b) + c
  {
  }

  method ObjectsInArray(s: string) returns (out: seq<string>)
    ensures out == Objects(s, 0, s)
  {
    out := [];
    var depth: int, start, i := 0, 0, 0;
    assert s[0..] == s && Objects(s, 0, s) == Left(s, 0, 0, 0);
    while i < |s|
      invariant start <= i && start <= |s|
      invariant Objects(s, 0, s) == out + Left(s, i, depth, start)
    {
      if s[i] == '"' {
        LeftAtQuote(s, i, depth, start);
        i := SkipString(s, i);
      } else if s[i] == '{' || s[i] == '[' {
        LeftAtOpen(s, i, depth, start);
        depth := depth + 1;
        if depth == 2 && s[i] == '{' {
          start := i;
        }
        i := i + 1;
      } else if s[i] == '}' || s[i] == ']' {
        LeftAtClose(s, i, depth, start);
        depth := depth - 1;
        if depth == 1 && s[i] == '}' {
          Regroup(out, [s[start..i + 1]], Left(s, i + 1, 1, start));
          out := out + [s[start..i + 1]];
        } else if depth == 0 {
          return;
        }
        i := i + 1;
      } else {
        LeftElsewhere(s, i, depth, start);
        i := i + 1;
      }
    }
  }

  lemma {:induction false} DropSlice(s: string, i: nat, lo: nat, hi: nat)
    requires lo <= hi && i + hi <= |s|
    ensures s[i..][lo..hi] == s[i + lo..i + hi]
  {
  }

  /** The key test at a string literal `obj[i..end]`. */
  method MemberValue(obj: string, i: nat, end: nat, key: string) returns (v: Option<string>)
    requires i < |obj| && end <= |obj| && end == i + LiteralLength(obj[i..])
    ensures v == KeyValue(obj[i..], end - i, key)
  {
    DropDrop(obj, i, end - i);
    var after := TrimStart(obj[end..]);
    if |after| > 0 && after[0] == ':' {
      DropSlice(obj, i, 1, end - i - 1);
      if obj[i + 1..end - 1] == key {
        return Some(TrimStart(after[1..]));
      }
    }
    return None;
  }

  method TopLevelValue(obj: string, key: string) returns (r: Outcome)
    ensures r == TopLevel(obj, 0, key)
  {
    var depth: int, i := 0, 0;
    while i < |obj|
      invariant i <= |obj| && TopLevel(obj, 0, key) == TopLevel(obj[i..], depth, key)
    {
      DropDrop(obj, i, 1);
      if obj[i] == '"' {
        var end := SkipString(obj, i);
        if end > |obj| {
          return Crash;
        }
        if depth == 1 {
          var v := MemberValue(obj, i, end, key);
          if v.Some? {
            return Found(v.value);
          }
        }
        DropDrop(obj, i, end - i);
        i := end;
      } else if obj[i] == '{' || obj[i] == '[' {
        depth, i := depth + 1, i + 1;
      } else if obj[i] == '}' || obj[i] == ']' {
        depth, i := depth - 1, i + 1;
      } else {
        i := i + 1;
      }
    }
    return Absent;
  }
}

/** How a directory is named and a target is read, spelled out character by character. */
module PaneTargets {
  import opened Wrappers
  import opened Text
  import opened PaneNames
  import opened PaneResolution

  /* ---------------------------------------------------------------- directories */

  function Slashes(n: nat): string {
    seq(n, _ => '/')
  }

  lemma {:induction false} TrimSlashesOf(s: string, n: nat)
    requires |s| == 0 || s[|s| - 1] != '/'
    ensures TrimSlashes(s + Slashes(n)) == s
  {
    if n == 0 {
      assert s + Slashes(0) == s;
    } else {
      assert (s + Slashes(n))[..|s + Slashes(n)| - 1] == s + Slashes(n - 1);
      TrimSlashesOf(s, n - 1);
    }
  }

  /** The base name is the last component, whatever stands before it and however many slashes behind it. */
  lemma {:induction false} BaseNameIsLastComponent(parent: string, name: string, n: nat)
    requires |name| > 0 && '/' !in name && (|parent| == 0 || parent[|parent| - 1] == '/')
    ensures BaseName(parent + name + Slashes(n)) == name
  {
    TrimSlashesOf(parent + name, n);
    if |parent| == 0 {
      assert parent + name == name;
      PlainDirectory(name);
    } else {
      var front := parent[..|parent| - 1];
      assert parent + name == front + ['/'] + name;
      SplitsAtLast(front, '/', name);
    }
  }

  lemma {:induction false} RootHasNoName(n: nat)
    ensures BaseName(Slashes(n)) == "?"
  {
    assert "" + Slashes(n) == Slashes(n);
    TrimSlashesOf("", n);
  }

  /* ---------------------------------------------------------------- numbers */

  /** `t` is `b`, a hash sign, perhaps a plus sign, and digits of value `k`. */
  ghost predicate Numbers(t: string, b: string, k: nat) {
    exists sign, d :: IsNumbered(t, b, sign, d) && DigitsValue(d) == k
  }

  predicate IsNumbered(t: string, b: string, sign: string, d: string) {
    (sign == "" || sign == "+") && IsNumeral(d) && t == b + "#" + (sign + d)
  }

  /** Digits count in tens. */
  lemma {:induction false} DigitsCountInTens(d: string, c: char)
    requires (forall i :: 0 <= i < |d| ==> IsDigit(d[i])) && '0' <= c <= '9'
    ensures DigitsValue(d + [c]) == 10 * DigitsValue(d) + (c as int - '0' as int) && DigitsValue([]) == 0
  {
    assert (d + [c])[..|d|] == d;
  }

  lemma {:induction false} ParseIff(s: string, k: nat)
    ensures ParseUsize(s) == Some(k) <==>
            k < USIZE_SPAN && exists sign, d :: (sign == "" || sign == "+") && IsNumeral(d) && s == sign + d
                                                && DigitsValue(d) == k
  {
    var sign := if |s| > 0 && s[0] == '+' then "+" else "";
    var d := if |s| > 0 && s[0] == '+' then s[1..] else s;
    assert s == sign + d;
    if IsNumeral(d) {
      ParseOf(sign, d);
    }
    if plus, digits :| (plus == "" || plus == "+") && IsNumeral(digits) && s == plus + digits
                       && DigitsValue(digits) == k && k < USIZE_SPAN
    {
      ParseOf(plus, digits);
    }
  }

  lemma {:induction false} ParseOf(sign: string, d: string)
    requires (sign == "" || sign == "+") && IsNumeral(d)
    ensures ParseUsize(sign + d) == if DigitsValue(d) < USIZE_SPAN then Some(DigitsValue(d)) else None
  {
    if sign == "" {
      assert sign + d == d && IsDigit(d[0]);
    } else {
      assert (sign + d)[1..] == d;
    }
  }

  lemma {:induction false} LastSplits(t: string, c: char)
    requires c in t
    ensures t == BeforeLast(t, c) + [c] + AfterLast(t, c)
  {
    var n := |t| - 1;
    if t[n] == c {
      assert t == t[..n] + [c] + "";
    } else {
      LastSplits(t[..n], c);
      assert t == t[..n] + [t[n]];
    }
  }

  /** A target is read as a name and a number exactly if it is spelled so; otherwise it is a name as it stands. */
  lemma {:induction false} SplitIffNumbered(t: string, b: string, k: nat)
    ensures SplitNumber(t) == (b, Some(k)) <==> |b| > 0 && k < 0x1_0000_0000_0000_0000 && Numbers(t, b, k)
    ensures SplitNumber(t).1 == None ==> SplitNumber(t).0 == t
  {
    if SplitNumber(t) == (b, Some(k)) {
      LastSplits(t, '#');
      ParseIff(AfterLast(t, '#'), k);
      var sign, d :| (sign == "" || sign == "+") && IsNumeral(d) && AfterLast(t, '#') == sign + d
                     && DigitsValue(d) == k;
      assert IsNumbered(t, b, sign, d);
    }
    if |b| > 0 && k < USIZE_SPAN && Numbers(t, b, k) {
      var sign, d :| IsNumbered(t, b, sign, d) && DigitsValue(d) == k;
      NoHash(sign, d);
      assert t == b + ['#'] + (sign + d);
      SplitsAtLast(b, '#', sign + d);
      ParseOf(sign, d);
    }
  }

  lemma {:induction false} NoHash(sign: string, d: string)
    requires (sign == "" || sign == "+") && IsNumeral(d)
    ensures '#' !in sign + d
  {
  }

  /* ---------------------------------------------------------------- paths */

  /** A target with a slash is a whole path or a tail of it; one without is any part of the path. */
  ghost predicate Fits(cwd: string, t: string, lower: Lowering) {
    var c := lower(TrimSlashes(cwd));
    if '/' in t then c == t || exists front: string :: c == front + ("/" + t)
    else exists front: string, back: string :: c == front + t + back
  }

  lemma {:induction false} EndsIff(c: string, t: string)
    ensures EndsWith(c, t) <==> exists front: string :: c == front + t
  {
    if EndsWith(c, t) { assert c == c[..|c| - |t|] + t; }
  }

  lemma {:induction false} ContainsIff(c: string, t: string)
    ensures Contains(c, t) <==> exists front: string, back: string :: c == front + t + back
  {
    if Contains(c, t) {
      var i :| 0 <= i <= |c| - |t| && Occurs(c, t, i);
      assert c == c[..i] + t + c[i + |t|..];
    }
    if front: string, back: string :| c == front + t + back {
      assert Occurs(c, t, |front|);
    }
  }

  lemma {:induction false} MatchesIffFits(cwd: string, t: string, lower: Lowering)
    ensures Matches(cwd, t, lower) <==> Fits(cwd, t, lower)
  {
    EndsIff(lower(TrimSlashes(cwd)), "/" + t);
    ContainsIff(lower(TrimSlashes(cwd)), t);
  }

  /** The panes that fit, in input order. */
  ghost function Fitting(panes: seq<PaneRef>, t: string, lower: Lowering): seq<nat> {
    if |panes| == 0 then []
    else
      var n := |panes| - 1;
      Fitting(panes[..n], t, lower) + if Fits(panes[n].cwd, t, lower) then [panes[n].sid] else []
  }

  lemma {:induction false} HitsFit(panes: seq<PaneRef>, t: string, lower: Lowering)
    ensures Hits(panes, t, lower) == Fitting(panes, t, lower)
  {
    if |panes| > 0 {
      HitsFit(panes[..|panes| - 1], t, lower);
      MatchesIffFits(panes[|panes| - 1].cwd, t, lower);
    }
  }

  lemma {:induction false} NoneLowered(panes: seq<PaneRef>, base: string, lower: Lowering)
    requires forall p :: p in panes ==> lower(BaseName(p.cwd)) != base
    ensures LowerPeers(panes, base, lower) == []
  {
    if |panes| > 0 {
      LastIn(panes);
      NoneLowered(panes[..|panes| - 1], base, lower);
    }
  }

  /** Nothing but white space is the one target called empty. */
  lemma {:induction false} EmptyIffBlank(target: string, panes: seq<PaneRef>, lower: Lowering)
    ensures Meaning(target, panes, lower) == Err(EmptyTarget) <==> |lower(Trim(target))| == 0
  {
  }

  /** A target that is nobody's name means the one pane whose path it fits; none and several are errors. */
  lemma {:induction false} PathMeans(target: string, panes: seq<PaneRef>, lower: Lowering)
    requires var t := lower(Trim(target));
             |t| > 0 && forall p :: p in panes ==> lower(BaseName(p.cwd)) != SplitNumber(t).0
    ensures
      var fitting := Fitting(panes, lower(Trim(target)), lower);
      Meaning(target, panes, lower) ==
      if |fitting| == 0 then Err(NoMatch) else if |fitting| == 1 then Ok(fitting[0]) else Err(Ambiguous(fitting))
  {
    var t := lower(Trim(target));
    NoneLowered(panes, SplitNumber(t).0, lower);
    HitsFit(panes, t, lower);
  }
}

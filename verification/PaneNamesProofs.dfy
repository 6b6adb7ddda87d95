/** Names and what they mean undo each other: numbering, uniqueness, resolution. */
module PaneNamesProofs {
  import opened Wrappers
  import opened PaneNames

  ghost predicate DistinctSids(s: seq<PaneRef>) {
    forall i, j :: 0 <= i < j < |s| ==> s[i].sid != s[j].sid
  }

  ghost predicate Rising(s: seq<PaneRef>) {
    forall i, j :: 0 <= i < j < |s| ==> KeyLess(s[i], s[j])
  }

  /** Panes before `p` in reading order. */
  function CountBefore(s: seq<PaneRef>, p: PaneRef): nat {
    if s == [] then 0 else (if KeyLess(s[0], p) then 1 else 0) + CountBefore(s[1..], p)
  }

  /** The place of `p` among the panes of its name, in reading order, from 1. */
  function Rank(panes: seq<PaneRef>, p: PaneRef): nat {
    CountBefore(Peers(panes, BaseName(p.cwd)), p) + 1
  }

  /* ---------------------------------------------------------------- sorting */

  lemma {:induction false} KeyLessIsStrictOrder(p: PaneRef, q: PaneRef, r: PaneRef)
    ensures !KeyLess(p, p)
    ensures KeyLess(p, q) && KeyLess(q, r) ==> KeyLess(p, r)
    ensures p.sid != q.sid ==> KeyLess(p, q) || KeyLess(q, p)
    ensures !(KeyLess(p, q) && KeyLess(q, p))
  {
  }

  lemma {:induction false} InsertRises(s: seq<PaneRef>, p: PaneRef)
    requires Rising(s) && forall i :: 0 <= i < |s| ==> s[i].sid != p.sid
    ensures Rising(Insert(s, p))
  {
    if s == [] {
    } else if KeyLess(p, s[0]) {
      forall i | 0 < i < |s| ensures KeyLess(p, s[i]) { KeyLessIsStrictOrder(p, s[0], s[i]); }
    } else {
      InsertRises(s[1..], p);
      var rest := Insert(s[1..], p);
      forall j | 0 <= j < |rest| ensures KeyLess(s[0], rest[j]) {
        KeyLessIsStrictOrder(s[0], p, p);
        assert rest[j] in multiset(rest);
        assert rest[j] in s[1..] || rest[j] == p;
      }
    }
  }

  lemma {:induction false} SortRises(s: seq<PaneRef>)
    requires DistinctSids(s)
    ensures Rising(SortPanes(s))
  {
    if s != [] {
      SortRises(s[1..]);
      var rest := SortPanes(s[1..]);
      forall j | 0 <= j < |rest| ensures rest[j].sid != s[0].sid {
        assert rest[j] in multiset(rest) && rest[j] in s[1..];
      }
      InsertRises(rest, s[0]);
    }
  }

  lemma {:induction false} InsertCounts(s: seq<PaneRef>, x: PaneRef, p: PaneRef)
    ensures CountBefore(Insert(s, x), p) == CountBefore(s, p) + if KeyLess(x, p) then 1 else 0
  {
    if s != [] && !KeyLess(x, s[0]) {
      InsertCounts(s[1..], x, p);
      assert Insert(s, x)[1..] == Insert(s[1..], x);
    } else {
      assert Insert(s, x)[1..] == s;
    }
  }

  lemma {:induction false} SortCounts(s: seq<PaneRef>, p: PaneRef)
    ensures CountBefore(SortPanes(s), p) == CountBefore(s, p)
  {
    if s != [] {
      SortCounts(s[1..], p);
      InsertCounts(SortPanes(s[1..]), s[0], p);
    }
  }

  lemma {:induction false} NothingBefore(s: seq<PaneRef>, p: PaneRef)
    requires forall i :: 0 <= i < |s| ==> !KeyLess(s[i], p)
    ensures CountBefore(s, p) == 0
  {
    if s != [] { NothingBefore(s[1..], p); }
  }

  /** In a sorted list a pane stands behind exactly the panes before it. */
  lemma {:induction false} PositionIsCount(s: seq<PaneRef>, p: PaneRef)
    requires Rising(s) && DistinctSids(s) && p in s
    ensures PositionOf(s, p.sid) == Some(CountBefore(s, p))
    ensures CountBefore(s, p) < |s| && s[CountBefore(s, p)] == p
  {
    var i :| 0 <= i < |s| && s[i] == p;
    if i == 0 {
      forall j | 0 <= j < |s| ensures !KeyLess(s[j], p) {
        KeyLessIsStrictOrder(p, s[j], p);
      }
      NothingBefore(s, p);
    } else {
      assert s[1..][i - 1] == p;
      PositionIsCount(s[1..], p);
    }
  }

  lemma {:induction false} SameSids(s: seq<PaneRef>, t: seq<PaneRef>)
    requires DistinctSids(s) && Rising(t) && multiset(s) == multiset(t)
    ensures DistinctSids(t)
  {
    forall i, j | 0 <= i < j < |t| ensures t[i].sid != t[j].sid {
      KeyLessIsStrictOrder(t[i], t[j], t[i]);
      assert t[i] in multiset(t) && t[j] in multiset(t);
      var a :| 0 <= a < |s| && s[a] == t[i];
      var b :| 0 <= b < |s| && s[b] == t[j];
      assert a != b;
    }
  }

  lemma {:induction false} SameFirst(s: seq<PaneRef>, t: seq<PaneRef>)
    requires Rising(s) && Rising(t) && multiset(s) == multiset(t) && s != [] && t != []
    ensures s[0] == t[0]
  {
    assert s[0] in multiset(t) && t[0] in multiset(s);
    var k :| 0 <= k < |t| && t[k] == s[0];
    var m :| 0 <= m < |s| && s[m] == t[0];
    KeyLessIsStrictOrder(s[0], t[0], s[0]);
  }

  /** A sorted list is determined by what it holds. */
  lemma {:induction false} RisingUnique(s: seq<PaneRef>, t: seq<PaneRef>)
    requires Rising(s) && Rising(t) && multiset(s) == multiset(t)
    ensures s == t
  {
    assert |s| == |multiset(s)| && |t| == |multiset(t)|;
    if s != [] {
      SameFirst(s, t);
      assert s == [s[0]] + s[1..] && t == [t[0]] + t[1..];
      assert multiset(s[1..]) == multiset(s) - multiset{s[0]} && multiset(t[1..]) == multiset(t) - multiset{t[0]};
      RisingUnique(s[1..], t[1..]);
    }
  }

  /* ---------------------------------------------------------------- peers */

  lemma {:induction false} PeersAre(panes: seq<PaneRef>, base: string)
    ensures forall q :: multiset(Peers(panes, base))[q] == if BaseName(q.cwd) == base then multiset(panes)[q] else 0
  {
    if panes != [] {
      PeersAre(panes[..|panes| - 1], base);
      assert panes == panes[..|panes| - 1] + [panes[|panes| - 1]];
    }
  }

  lemma {:induction false} PeersMember(panes: seq<PaneRef>, base: string, q: PaneRef)
    ensures q in Peers(panes, base) <==> q in panes && BaseName(q.cwd) == base
  {
    PeersAre(panes, base);
    assert q in Peers(panes, base) <==> multiset(Peers(panes, base))[q] > 0;
    assert q in panes <==> multiset(panes)[q] > 0;
  }

  lemma {:induction false} PeersDistinct(panes: seq<PaneRef>, base: string)
    requires DistinctSids(panes)
    ensures DistinctSids(Peers(panes, base))
  {
    if panes != [] {
      var n := |panes| - 1;
      PeersDistinct(panes[..n], base);
      var peers := Peers(panes[..n], base);
      forall i | 0 <= i < |peers| ensures peers[i].sid != panes[n].sid {
        PeersMember(panes[..n], base, peers[i]);
        assert peers[i] in peers;
      }
    }
  }

  lemma {:induction false} PeersConcat(a: seq<PaneRef>, b: seq<PaneRef>, base: string)
    ensures Peers(a + b, base) == Peers(a, base) + Peers(b, base)
  {
    if b == [] {
      assert a + b == a;
    } else {
      assert (a + b)[..|a + b| - 1] == a + b[..|b| - 1];
      PeersConcat(a, b[..|b| - 1], base);
    }
  }

  lemma {:induction false} CountConcat(a: seq<PaneRef>, b: seq<PaneRef>, p: PaneRef)
    ensures CountBefore(a + b, p) == CountBefore(a, p) + CountBefore(b, p)
  {
    if a == [] {
      assert a + b == b;
    } else {
      assert (a + b)[1..] == a[1..] + b;
      CountConcat(a[1..], b, p);
    }
  }

  /* ---------------------------------------------------------------- numbering */

  lemma {:induction false} PlaceInSorted(peers: seq<PaneRef>, p: PaneRef)
    requires DistinctSids(peers) && p in peers
    ensures PositionOf(SortPanes(peers), p.sid) == Some(CountBefore(peers, p))
    ensures CountBefore(peers, p) < |peers| && SortPanes(peers)[CountBefore(peers, p)] == p
  {
    SortRises(peers);
    SameSids(peers, SortPanes(peers));
    assert p in multiset(SortPanes(peers));
    PositionIsCount(SortPanes(peers), p);
    SortCounts(peers, p);
  }

  /** A pane alone with its name carries it plain; otherwise its number is its place in reading order. */
  lemma {:induction false} NameIsRank(panes: seq<PaneRef>, p: PaneRef)
    requires DistinctSids(panes) && p in panes
    ensures var base := BaseName(p.cwd);
            && NameOf(panes, p) == (if |Peers(panes, base)| == 1 then base else Numbered(base, Rank(panes, p)))
            && 1 <= Rank(panes, p) <= |Peers(panes, base)|
            && SortPanes(Peers(panes, base))[Rank(panes, p) - 1] == p
  {
    PeersMember(panes, BaseName(p.cwd), p);
    PeersDistinct(panes, BaseName(p.cwd));
    PlaceInSorted(Peers(panes, BaseName(p.cwd)), p);
  }

  lemma {:induction false} SortedPeersIgnoreOrder(panes: seq<PaneRef>, shuffled: seq<PaneRef>, base: string)
    requires DistinctSids(panes) && DistinctSids(shuffled) && multiset(panes) == multiset(shuffled)
    ensures SortPanes(Peers(panes, base)) == SortPanes(Peers(shuffled, base))
  {
    var s, t := Peers(panes, base), Peers(shuffled, base);
    PeersAre(panes, base);
    PeersAre(shuffled, base);
    assert multiset(s) == multiset(t);
    PeersDistinct(panes, base);
    PeersDistinct(shuffled, base);
    SortRises(s);
    SortRises(t);
    RisingUnique(SortPanes(s), SortPanes(t));
  }

  /** The numbering does not depend on the order the panes come in. */
  lemma {:induction false} NumberingIgnoresOrder(panes: seq<PaneRef>, shuffled: seq<PaneRef>, p: PaneRef)
    requires DistinctSids(panes) && DistinctSids(shuffled) && multiset(panes) == multiset(shuffled)
    ensures NameOf(panes, p) == NameOf(shuffled, p)
  {
    SortedPeersIgnoreOrder(panes, shuffled, BaseName(p.cwd));
  }

  lemma {:induction false} CountMonotone(s: seq<PaneRef>, r: PaneRef, p: PaneRef)
    requires KeyLess(r, p)
    ensures CountBefore(s, r) <= CountBefore(s, p)
    ensures r in s ==> CountBefore(s, r) < CountBefore(s, p)
  {
    if s != [] {
      KeyLessIsStrictOrder(s[0], r, p);
      KeyLessIsStrictOrder(r, r, r);
      CountMonotone(s[1..], r, p);
      assert s == [s[0]] + s[1..];
    }
  }

  /**
   How a person reads the screen: by window, then row, then column, and panes of one place by
   session; panes off the screen come last, by session.
   */
  predicate ReadBefore(r: PaneRef, p: PaneRef) {
    if r.at.Some? && p.at.Some? then
      var (window, row, column) := r.at.value;
      var (window', row', column') := p.at.value;
      if window != window' then window < window'
      else if row != row' then row < row'
      else if column != column' then column < column'
      else r.sid < p.sid
    else if r.at.None? && p.at.None? then r.sid < p.sid
    else r.at.Some?
  }

  /** Among panes of one name, reading order is the order of the numbers. */
  lemma {:induction false} RankFollowsReadingOrder(panes: seq<PaneRef>, r: PaneRef, p: PaneRef)
    requires r in panes && p in panes && r.sid != p.sid && BaseName(r.cwd) == BaseName(p.cwd)
    ensures KeyLess(r, p) <==> Rank(panes, r) < Rank(panes, p)
    ensures Rank(panes, r) < Rank(panes, p) <==> ReadBefore(r, p)
  {
    PeersMember(panes, BaseName(p.cwd), p);
    PeersMember(panes, BaseName(p.cwd), r);
    KeyLessIsStrictOrder(r, p, r);
    if KeyLess(r, p) { CountMonotone(Peers(panes, BaseName(p.cwd)), r, p); }
    if KeyLess(p, r) { CountMonotone(Peers(panes, BaseName(p.cwd)), p, r); }
  }

  lemma {:induction false} RemovalCounts(before: seq<PaneRef>, r: PaneRef, after: seq<PaneRef>, base: string,
                                         p: PaneRef)
    ensures var all, left := Peers(before + [r] + after, base), Peers(before + after, base);
            if BaseName(r.cwd) == base then
              |left| == |all| - 1 && CountBefore(left, p) == CountBefore(all, p) - (if KeyLess(r, p) then 1 else 0)
            else left == all
  {
    var one := if BaseName(r.cwd) == base then [r] else [];
    assert [r][..0] == [];
    assert Peers([r], base) == one;
    PeersConcat(before + [r], after, base);
    PeersConcat(before, [r], base);
    PeersConcat(before, after, base);
    var x, y := Peers(before, base), Peers(after, base);
    CountConcat(x + one, y, p);
    CountConcat(x, one, p);
    CountConcat(x, y, p);
    if BaseName(r.cwd) == base {
      assert one[1..] == [];
    } else {
      assert x + one == x;
    }
  }

  lemma {:induction false} MiddleDiffers(before: seq<PaneRef>, r: PaneRef, after: seq<PaneRef>, p: PaneRef)
    requires DistinctSids(before + [r] + after) && p in before + after
    ensures p in before + [r] + after && r in before + [r] + after && p.sid != r.sid
  {
    var all := before + [r] + after;
    assert all[|before|] == r;
    if p in before {
      var i :| 0 <= i < |before| && before[i] == p;
      assert all[i] == p;
    } else {
      var i :| 0 <= i < |after| && after[i] == p;
      assert all[|before| + 1 + i] == p;
    }
  }

  /** Removing a pane lowers exactly the higher numbers of its name, by one; no other number changes. */
  lemma {:induction false} RemovalClosesGap(before: seq<PaneRef>, r: PaneRef, after: seq<PaneRef>, p: PaneRef)
    requires DistinctSids(before + [r] + after) && p in before + after
    ensures var all, left, same := before + [r] + after, before + after, BaseName(r.cwd) == BaseName(p.cwd);
            && Rank(left, p) == Rank(all, p) - (if same && Rank(all, r) < Rank(all, p) then 1 else 0)
            && |Peers(left, BaseName(p.cwd))| == |Peers(all, BaseName(p.cwd))| - (if same then 1 else 0)
  {
    MiddleDiffers(before, r, after, p);
    RemovalCounts(before, r, after, BaseName(p.cwd), p);
    if BaseName(r.cwd) == BaseName(p.cwd) { RankFollowsReadingOrder(before + [r] + after, r, p); }
  }
}

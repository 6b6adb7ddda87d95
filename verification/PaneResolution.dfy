/** When `resolve` undoes `assign`: on speakable names, exactly where none differ in case only. */
module PaneResolution {
  import opened Wrappers
  import opened Text
  import opened PaneNames
  import opened PaneNamesProofs

  /* ---------------------------------------------------------------- numbers in names */

  lemma {:induction false} DecimalReads(n: nat)
    ensures IsNumeral(Decimal(n)) && DigitsValue(Decimal(n)) == n && (n > 0 ==> Decimal(n)[0] != '0')
  {
    if n < 10 {
      var c := (n + 48) as char;
      assert Decimal(n)[..0] == "" && DigitsValue(Decimal(n)) == DigitsValue("") * 10 + (c as int - 48);
    } else {
      DecimalReads(n / 10);
      var s := Decimal(n);
      assert s[..|s| - 1] == Decimal(n / 10);
    }
  }

  lemma {:induction false} SplitsAtLast(b: string, c: char, d: string)
    requires c !in d
    ensures c in b + [c] + d && BeforeLast(b + [c] + d, c) == b && AfterLast(b + [c] + d, c) == d
  {
    var s := b + [c] + d;
    assert s[|b|] == c;
    if d == "" {
      assert s[..|s| - 1] == b;
    } else {
      var init := d[..|d| - 1];
      assert s[..|s| - 1] == b + [c] + init;
      assert d == init + [d[|d| - 1]];
      SplitsAtLast(b, c, init);
    }
  }

  /** A numbered name is split back into its base and its number. */
  lemma {:induction false} NumberedSplits(b: string, k: nat)
    requires b != "" && k < USIZE_SPAN
    ensures SplitNumber(Numbered(b, k)) == (b, Some(k))
  {
    var d := Decimal(k);
    DecimalReads(k);
    assert '#' !in d;
    assert Numbered(b, k) == b + ['#'] + d;
    SplitsAtLast(b, '#', d);
  }

  lemma {:induction false} NumberedInjective(b: string, k: nat, b': string, k': nat)
    requires Numbered(b, k) == Numbered(b', k')
    ensures b == b' && k == k'
  {
    DecimalReads(k);
    DecimalReads(k');
    assert Numbered(b, k) == b + ['#'] + Decimal(k) && Numbered(b', k') == b' + ['#'] + Decimal(k');
    SplitsAtLast(b, '#', Decimal(k));
    SplitsAtLast(b', '#', Decimal(k'));
  }

  /* ---------------------------------------------------------------- when names are distinct */

  function GroupSize(panes: seq<PaneRef>, p: PaneRef): nat {
    |Peers(panes, BaseName(p.cwd))|
  }

  /** A directory shown plain is spelled like a number that a shared name hands out. */
  ghost predicate Clash(panes: seq<PaneRef>, p: PaneRef, q: PaneRef, k: nat) {
    && p in panes && q in panes && GroupSize(panes, p) == 1 && GroupSize(panes, q) > 1
    && 1 <= k <= GroupSize(panes, q) && BaseName(p.cwd) == Numbered(BaseName(q.cwd), k)
  }

  ghost predicate Collides(panes: seq<PaneRef>) {
    exists p, q, k :: Clash(panes, p, q, k)
  }

  ghost predicate SameName(panes: seq<PaneRef>, p: PaneRef, q: PaneRef) {
    p in panes && q in panes && p != q && NameOf(panes, p) == NameOf(panes, q)
  }

  lemma {:induction false} SameGroupDiffers(panes: seq<PaneRef>, p: PaneRef, q: PaneRef)
    requires DistinctSids(panes) && p in panes && q in panes && p != q && BaseName(p.cwd) == BaseName(q.cwd)
    ensures GroupSize(panes, p) > 1 && Rank(panes, p) != Rank(panes, q) && NameOf(panes, p) != NameOf(panes, q)
  {
    NameIsRank(panes, p);
    NameIsRank(panes, q);
    if NameOf(panes, p) == NameOf(panes, q) && GroupSize(panes, p) > 1 {
      NumberedInjective(BaseName(p.cwd), Rank(panes, p), BaseName(q.cwd), Rank(panes, q));
    }
  }

  lemma {:induction false} EqualNamesClash(panes: seq<PaneRef>, p: PaneRef, q: PaneRef)
    requires DistinctSids(panes) && SameName(panes, p, q)
    ensures Clash(panes, p, q, Rank(panes, q)) || Clash(panes, q, p, Rank(panes, p))
  {
    NameIsRank(panes, p);
    NameIsRank(panes, q);
    if BaseName(p.cwd) == BaseName(q.cwd) {
      SameGroupDiffers(panes, p, q);
      assert false;
    } else if GroupSize(panes, p) != 1 && GroupSize(panes, q) != 1 {
      NumberedInjective(BaseName(p.cwd), Rank(panes, p), BaseName(q.cwd), Rank(panes, q));
      assert false;
    }
  }

  /** Every number up to the size of its group is handed out. */
  lemma {:induction false} NumberIsUsed(panes: seq<PaneRef>, q: PaneRef, k: nat) returns (r: PaneRef)
    requires DistinctSids(panes) && q in panes && 1 <= k <= GroupSize(panes, q)
    ensures r in panes && BaseName(r.cwd) == BaseName(q.cwd) && Rank(panes, r) == k
  {
    var peers := Peers(panes, BaseName(q.cwd));
    r := SortPanes(peers)[k - 1];
    assert r in multiset(SortPanes(peers)) && r in peers;
    PeersMember(panes, BaseName(q.cwd), r);
    NameIsRank(panes, r);
    PeersDistinct(panes, BaseName(q.cwd));
    SortRises(peers);
    SameSids(peers, SortPanes(peers));
    assert SortPanes(peers)[Rank(panes, r) - 1] == r;
  }

  /** No two panes share a name exactly when no plain directory is spelled like a number handed out. */
  lemma {:induction false} NamesDistinctIffNoCollision(panes: seq<PaneRef>)
    requires DistinctSids(panes)
    ensures (exists p, q :: SameName(panes, p, q)) <==> Collides(panes)
  {
    if p, q :| SameName(panes, p, q) {
      EqualNamesClash(panes, p, q);
    }
    if Collides(panes) {
      var p, q, k :| Clash(panes, p, q, k);
      var r := NumberIsUsed(panes, q, k);
      NameIsRank(panes, p);
      NameIsRank(panes, r);
      assert SameName(panes, p, r);
    }
  }

  lemma {:induction false} PlainDirectory(s: string)
    requires '/' !in s
    ensures TrimSlashes(s) == s && AfterLast(s, '/') == s && (s != "" ==> BaseName(s) == s)
  {
    if s != "" {
      var init := s[..|s| - 1];
      assert s == init + [s[|s| - 1]];
      PlainDirectory(init);
    }
  }

  lemma {:induction false} PeersOfThree(p: PaneRef, q: PaneRef, r: PaneRef, b: string, c: string)
    requires BaseName(p.cwd) == b && BaseName(q.cwd) == b && BaseName(r.cwd) == c && b != c
    ensures Peers([p, q, r], b) == [p, q] && Peers([p, q, r], c) == [r]
  {
    assert [p, q, r][..2] == [p, q] && [p, q][..1] == [p] && [p][..0] == [];
    assert Peers([p], b) == [p] && Peers([p], c) == [];
    assert Peers([p, q], b) == [p, q] && Peers([p, q], c) == [];
  }

  lemma {:induction false} FirstOfTwo(p: PaneRef, q: PaneRef)
    requires KeyLess(p, q)
    ensures CountBefore([p, q], p) == 0
  {
    KeyLessIsStrictOrder(p, q, p);
    assert [p, q][1..] == [q] && [q][1..] == [];
    assert CountBefore([q], p) == 0;
  }

  lemma {:induction false} FirstAndLookalike(panes: seq<PaneRef>, p: PaneRef, q: PaneRef, r: PaneRef, b: string)
    requires DistinctSids(panes) && p in panes && r in panes && KeyLess(p, q)
    requires BaseName(p.cwd) == b && Peers(panes, b) == [p, q]
    requires BaseName(r.cwd) == Numbered(b, 1) && Peers(panes, Numbered(b, 1)) == [r]
    ensures NameOf(panes, p) == Numbered(b, 1) && NameOf(panes, r) == Numbered(b, 1)
  {
    FirstOfTwo(p, q);
    NameIsRank(panes, p);
    NameIsRank(panes, r);
  }

  lemma {:induction false} PlainNumbered(d: string)
    requires d != "" && '/' !in d
    ensures BaseName(d) == d && BaseName(Numbered(d, 1)) == Numbered(d, 1) && d != Numbered(d, 1)
  {
    DecimalReads(1);
    assert '/' !in Decimal(1);
    PlainDirectory(d);
    PlainDirectory(Numbered(d, 1));
    assert |Numbered(d, 1)| > |d|;
  }

  /**
   Two panes in one directory and a third in a directory spelled like their first number, as `spg`,
   `spg`, `spg#1`: both are `spg#1`.
   */
  lemma {:induction false} NumberLikeDirectoryCollides(d: string, p: PaneRef, q: PaneRef, r: PaneRef)
    requires d != "" && '/' !in d
    requires p == PaneRef(1, d, None) && q == PaneRef(2, d, None) && r == PaneRef(3, Numbered(d, 1), None)
    ensures NameOf([p, q, r], p) == Numbered(d, 1) && NameOf([p, q, r], r) == Numbered(d, 1)
  {
    PlainNumbered(d);
    PeersOfThree(p, q, r, d, Numbered(d, 1));
    ThreeSids([p, q, r], p, q, r);
    FirstAndLookalike([p, q, r], p, q, r, d);
  }

  lemma {:induction false} ThreeSids(panes: seq<PaneRef>, p: PaneRef, q: PaneRef, r: PaneRef)
    requires panes == [p, q, r] && p.sid < q.sid < r.sid && p.at == q.at
    ensures DistinctSids(panes) && p in panes && r in panes && KeyLess(p, q)
  {
    assert panes[0] == p && panes[1] == q && panes[2] == r;
  }

  /* ---------------------------------------------------------------- resolving */

  /** What is used of `to_lowercase`: a number put behind a name stays as it is. */
  ghost predicate KeepsNumbers(lower: Lowering) {
    forall b, d :: IsNumeral(d) ==> lower(b + "#" + d) == lower(b) + "#" + d
  }

  /** A base name that survives trimming, lower-casing and splitting. */
  predicate Speakable(b: string, lower: Lowering) {
    Trim(b) == b && lower(b) != "" && SplitNumber(lower(b)) == (lower(b), None)
  }

  ghost predicate Addressable(panes: seq<PaneRef>, lower: Lowering) {
    && (forall p :: p in panes ==> Speakable(BaseName(p.cwd), lower))
    && forall p, q :: p in panes && q in panes && lower(BaseName(p.cwd)) == lower(BaseName(q.cwd)) ==>
         BaseName(p.cwd) == BaseName(q.cwd)
  }

  lemma {:induction false} LowerPeersArePeers(panes: seq<PaneRef>, base: string, lower: Lowering)
    requires forall q :: q in panes && lower(BaseName(q.cwd)) == lower(base) ==> BaseName(q.cwd) == base
    ensures LowerPeers(panes, lower(base), lower) == Peers(panes, base)
  {
    if |panes| > 0 {
      var n := |panes| - 1;
      LastIn(panes);
      LowerPeersArePeers(panes[..n], base, lower);
      assert lower(BaseName(panes[n].cwd)) == lower(base) <==> BaseName(panes[n].cwd) == base;
    }
  }

  lemma {:induction false} LastIn(panes: seq<PaneRef>)
    requires |panes| > 0
    ensures panes[|panes| - 1] in panes && forall q :: q in panes[..|panes| - 1] ==> q in panes
  {
  }

  lemma {:induction false} NumeralIsNotSpace(c: char)
    requires IsDigit(c)
    ensures !IsWhitespace(c)
  {
  }

  /** Numbering a trimmed name leaves it trimmed. */
  lemma {:induction false} NumberedIsTrimmed(b: string, k: nat)
    requires b != "" && Trim(b) == b
    ensures Trim(Numbered(b, k)) == Numbered(b, k)
  {
    var s := Numbered(b, k);
    DecimalReads(k);
    assert s[|s| - 1] == Decimal(k)[|Decimal(k)| - 1];
    NumeralIsNotSpace(s[|s| - 1]);
    assert s[0] == b[0];
    assert |TrimEnd(TrimStart(b))| == |b|;
    assert TrimStart(b) == b;
  }

  /** Some pane has the base name `base`, and that name survives being spoken. */
  ghost predicate Spoken(panes: seq<PaneRef>, base: string, lower: Lowering) {
    Speakable(base, lower) && exists p :: p in panes && BaseName(p.cwd) == base
  }

  /** The panes a spoken name is looked up among, in reading order. */
  function Variants(panes: seq<PaneRef>, base: string, lower: Lowering): seq<PaneRef> {
    SortPanes(LowerPeers(panes, lower(base), lower))
  }

  lemma {:induction false} LowerPeersMember(panes: seq<PaneRef>, base: string, p: PaneRef, lower: Lowering)
    ensures p in LowerPeers(panes, base, lower) <==> p in panes && lower(BaseName(p.cwd)) == base
  {
    if |panes| > 0 {
      var n := |panes| - 1;
      LowerPeersMember(panes[..n], base, p, lower);
      assert panes == panes[..n] + [panes[n]];
    }
  }

  lemma {:induction false} VariantsMember(panes: seq<PaneRef>, base: string, p: PaneRef, lower: Lowering)
    ensures p in Variants(panes, base, lower) <==> p in panes && lower(BaseName(p.cwd)) == lower(base)
  {
    var group := LowerPeers(panes, lower(base), lower);
    LowerPeersMember(panes, lower(base), p, lower);
    assert p in multiset(SortPanes(group)) <==> p in multiset(group);
  }

  lemma {:induction false} VariantsNotEmpty(panes: seq<PaneRef>, base: string, lower: Lowering)
    requires Spoken(panes, base, lower)
    ensures base != "" && Variants(panes, base, lower) != []
  {
    var p :| p in panes && BaseName(p.cwd) == base;
    VariantsMember(panes, base, p, lower);
  }

  /** A spoken base name means its case variants together. */
  lemma {:induction false} SpokenMeans(panes: seq<PaneRef>, base: string, lower: Lowering)
    requires Spoken(panes, base, lower)
    ensures Variants(panes, base, lower) != []
    ensures Meaning(base, panes, lower) == Pick(Variants(panes, base, lower), None)
  {
    VariantsNotEmpty(panes, base, lower);
  }

  /** A numbered one means the pane of that number among them. */
  lemma {:induction false} SpokenNumberMeans(panes: seq<PaneRef>, base: string, k: nat, lower: Lowering)
    requires Spoken(panes, base, lower) && KeepsNumbers(lower) && k < USIZE_SPAN
    ensures Variants(panes, base, lower) != []
    ensures Meaning(Numbered(base, k), panes, lower) == Pick(Variants(panes, base, lower), Some(k))
  {
    VariantsNotEmpty(panes, base, lower);
    NumberedIsTrimmed(base, k);
    DecimalReads(k);
    assert lower(Numbered(base, k)) == Numbered(lower(base), k);
    NumberedSplits(lower(base), k);
  }

  /** Some pane has the base name `base`, and the names can be addressed. */
  ghost predicate Named(panes: seq<PaneRef>, base: string, lower: Lowering) {
    Addressable(panes, lower) && exists p :: p in panes && BaseName(p.cwd) == base
  }

  lemma {:induction false} NamedGroup(panes: seq<PaneRef>, base: string, lower: Lowering)
    requires Named(panes, base, lower)
    ensures Spoken(panes, base, lower) && Variants(panes, base, lower) == SortPanes(Peers(panes, base)) != []
  {
    var p :| p in panes && BaseName(p.cwd) == base;
    LowerPeersArePeers(panes, base, lower);
    VariantsNotEmpty(panes, base, lower);
  }

  /** A base name means its group; a numbered one the pane of that number in it. */
  lemma {:induction false} PlainMeans(panes: seq<PaneRef>, base: string, lower: Lowering)
    requires Named(panes, base, lower)
    ensures SortPanes(Peers(panes, base)) != []
    ensures Meaning(base, panes, lower) == Pick(SortPanes(Peers(panes, base)), None)
  {
    NamedGroup(panes, base, lower);
    SpokenMeans(panes, base, lower);
  }

  lemma {:induction false} NumberedMeans(panes: seq<PaneRef>, base: string, k: nat, lower: Lowering)
    requires Named(panes, base, lower) && KeepsNumbers(lower) && k < USIZE_SPAN
    ensures SortPanes(Peers(panes, base)) != []
    ensures Meaning(Numbered(base, k), panes, lower) == Pick(SortPanes(Peers(panes, base)), Some(k))
  {
    NamedGroup(panes, base, lower);
    SpokenNumberMeans(panes, base, k, lower);
  }

  lemma {:induction false} PickPane(group: seq<PaneRef>, k: nat, p: PaneRef)
    requires 1 <= k <= |group| && group[k - 1] == p
    ensures Pick(group, Some(k)) == Ok(p.sid)
    ensures |group| == 1 ==> Pick(group, None) == Ok(p.sid)
  {
  }

  lemma {:induction false} LonePaneMeans(panes: seq<PaneRef>, p: PaneRef, base: string, lower: Lowering)
    requires Named(panes, base, lower) && |Peers(panes, base)| == 1 && SortPanes(Peers(panes, base))[0] == p
    ensures Meaning(base, panes, lower) == Ok(p.sid)
  {
    PickPane(SortPanes(Peers(panes, base)), 1, p);
    PlainMeans(panes, base, lower);
  }

  lemma {:induction false} RankedPaneMeans(panes: seq<PaneRef>, p: PaneRef, base: string, k: nat, lower: Lowering)
    requires Named(panes, base, lower) && KeepsNumbers(lower) && k < USIZE_SPAN
    requires 1 <= k <= |Peers(panes, base)| && SortPanes(Peers(panes, base))[k - 1] == p
    ensures Meaning(Numbered(base, k), panes, lower) == Ok(p.sid)
  {
    PickPane(SortPanes(Peers(panes, base)), k, p);
    NumberedMeans(panes, base, k, lower);
  }

  lemma {:induction false} HasName(panes: seq<PaneRef>, p: PaneRef, lower: Lowering)
    requires p in panes && Addressable(panes, lower)
    ensures Named(panes, BaseName(p.cwd), lower)
  {
  }

  /** The name handed to `p` means `p`. */
  ghost predicate Resolves(panes: seq<PaneRef>, p: PaneRef, lower: Lowering) {
    Meaning(NameOf(panes, p), panes, lower) == Ok(p.sid)
  }

  lemma {:induction false} LonePaneResolves(panes: seq<PaneRef>, p: PaneRef, lower: Lowering)
    requires DistinctSids(panes) && p in panes && GroupSize(panes, p) == 1
    requires Named(panes, BaseName(p.cwd), lower)
    ensures Resolves(panes, p, lower)
  {
    NameIsRank(panes, p);
    LonePaneMeans(panes, p, BaseName(p.cwd), lower);
  }

  lemma {:induction false} RankedPaneResolves(panes: seq<PaneRef>, p: PaneRef, lower: Lowering)
    requires DistinctSids(panes) && p in panes && GroupSize(panes, p) != 1 && |panes| < USIZE_SPAN
    requires KeepsNumbers(lower) && Named(panes, BaseName(p.cwd), lower)
    ensures Resolves(panes, p, lower)
  {
    NameIsRank(panes, p);
    PeersAtMost(panes, BaseName(p.cwd));
    RankedPaneMeans(panes, p, BaseName(p.cwd), Rank(panes, p), lower);
  }

  /** Every name `assign` hands out means the pane it was handed to. */
  lemma {:induction false} ResolveUndoesAssign(panes: seq<PaneRef>, p: PaneRef, lower: Lowering)
    requires DistinctSids(panes) && p in panes && |panes| < USIZE_SPAN
    requires KeepsNumbers(lower) && Addressable(panes, lower)
    ensures Meaning(NameOf(panes, p), panes, lower) == Ok(p.sid)
  {
    HasName(panes, p, lower);
    if GroupSize(panes, p) == 1 {
      LonePaneResolves(panes, p, lower);
    } else {
      RankedPaneResolves(panes, p, lower);
    }
  }

  lemma {:induction false} PeersAtMost(panes: seq<PaneRef>, base: string)
    ensures |Peers(panes, base)| <= |panes|
  {
    if panes != [] { PeersAtMost(panes[..|panes| - 1], base); }
  }

  /** A lone pane also answers to number 1, and a number never handed out is an error, not a guess. */
  lemma {:induction false} NumbersOutsideTheGroup(panes: seq<PaneRef>, p: PaneRef, k: nat, lower: Lowering)
    requires p in panes && k < USIZE_SPAN && KeepsNumbers(lower) && Addressable(panes, lower)
    ensures Meaning(Numbered(BaseName(p.cwd), k), panes, lower) ==
            if 1 <= k <= GroupSize(panes, p) then Ok(SortPanes(Peers(panes, BaseName(p.cwd)))[k - 1].sid)
            else Err(NoSuchNumber(k, GroupSize(panes, p)))
  {
    assert Named(panes, BaseName(p.cwd), lower);
    NumberedMeans(panes, BaseName(p.cwd), k, lower);
  }

  /** A bare shared name never silently means one of its panes. */
  lemma {:induction false} BareSharedNameIsAmbiguous(panes: seq<PaneRef>, p: PaneRef, lower: Lowering)
    requires p in panes && GroupSize(panes, p) > 1 && Addressable(panes, lower)
    ensures Meaning(BaseName(p.cwd), panes, lower) == Err(Ambiguous(Sids(SortPanes(Peers(panes, BaseName(p.cwd))))))
  {
    assert Named(panes, BaseName(p.cwd), lower);
    PlainMeans(panes, BaseName(p.cwd), lower);
  }

  /** Where names collide, some pane's name does not mean it. */
  lemma {:induction false} CollisionBreaksResolve(panes: seq<PaneRef>, lower: Lowering)
    requires DistinctSids(panes) && Collides(panes)
    ensures exists p :: p in panes && Meaning(NameOf(panes, p), panes, lower) != Ok(p.sid)
  {
    NamesDistinctIffNoCollision(panes);
    var p, q :| SameName(panes, p, q);
    var i :| 0 <= i < |panes| && panes[i] == p;
    var j :| 0 <= j < |panes| && panes[j] == q;
    assert p.sid != q.sid;
    assert Meaning(NameOf(panes, p), panes, lower) != Ok(p.sid) || Meaning(NameOf(panes, q), panes, lower) != Ok(q.sid);
  }

  /* ---------------------------------------------------------------- the exact condition */

  ghost predicate AllSpeakable(panes: seq<PaneRef>, lower: Lowering) {
    forall p :: p in panes ==> Speakable(BaseName(p.cwd), lower)
  }

  /** Two panes whose base names differ in case only. */
  ghost predicate CaseVariants(panes: seq<PaneRef>, p: PaneRef, q: PaneRef, lower: Lowering) {
    p in panes && q in panes && BaseName(p.cwd) != BaseName(q.cwd) && lower(BaseName(p.cwd)) == lower(BaseName(q.cwd))
  }

  /** A lone pane with a case variant is not found by its name. */
  lemma {:induction false} LoneVariantIsAmbiguous(panes: seq<PaneRef>, p: PaneRef, q: PaneRef, lower: Lowering)
    requires DistinctSids(panes) && AllSpeakable(panes, lower) && CaseVariants(panes, p, q, lower)
    requires GroupSize(panes, p) == 1
    ensures NameOf(panes, p) == BaseName(p.cwd) && Meaning(NameOf(panes, p), panes, lower).Err?
  {
    var base := BaseName(p.cwd);
    NameIsRank(panes, p);
    SpokenMeans(panes, base, lower);
    VariantsMember(panes, base, p, lower);
    VariantsMember(panes, base, q, lower);
    TwoAreNotOne(Variants(panes, base, lower), p, q);
  }

  lemma {:induction false} TwoAreNotOne(s: seq<PaneRef>, p: PaneRef, q: PaneRef)
    requires p in s && q in s && p != q
    ensures |s| > 1
  {
  }

  /** What `base#1` means in a group of more than one pane. */
  lemma {:induction false} FirstMeans(panes: seq<PaneRef>, p: PaneRef, lower: Lowering) returns (r: PaneRef)
    requires DistinctSids(panes) && AllSpeakable(panes, lower) && KeepsNumbers(lower)
    requires p in panes && GroupSize(panes, p) > 1
    ensures r in panes && BaseName(r.cwd) == BaseName(p.cwd) && Variants(panes, BaseName(p.cwd), lower) != []
    ensures Meaning(NameOf(panes, r), panes, lower) == Ok(Variants(panes, BaseName(p.cwd), lower)[0].sid)
  {
    r := NumberIsUsed(panes, p, 1);
    SharedNameIsNumbered(panes, r);
    NumberOneMeans(panes, BaseName(p.cwd), lower);
  }

  lemma {:induction false} SharedNameIsNumbered(panes: seq<PaneRef>, r: PaneRef)
    requires DistinctSids(panes) && r in panes && GroupSize(panes, r) > 1
    ensures NameOf(panes, r) == Numbered(BaseName(r.cwd), Rank(panes, r))
  {
    NameIsRank(panes, r);
  }

  lemma {:induction false} NumberOneMeans(panes: seq<PaneRef>, base: string, lower: Lowering)
    requires Spoken(panes, base, lower) && KeepsNumbers(lower)
    ensures Variants(panes, base, lower) != []
    ensures Meaning(Numbered(base, 1), panes, lower) == Ok(Variants(panes, base, lower)[0].sid)
  {
    SpokenNumberMeans(panes, base, 1, lower);
  }

  lemma {:induction false} SidsTell(panes: seq<PaneRef>, r: PaneRef, s: PaneRef)
    requires DistinctSids(panes) && r in panes && s in panes && r != s
    ensures r.sid != s.sid
  {
    var i :| 0 <= i < |panes| && panes[i] == r;
    var j :| 0 <= j < |panes| && panes[j] == s;
  }

  /** Two shared names that differ in case only: both first panes are spoken alike. */
  lemma {:induction false} SharedVariantsClash(panes: seq<PaneRef>, p: PaneRef, q: PaneRef, lower: Lowering)
    returns (broken: PaneRef)
    requires DistinctSids(panes) && AllSpeakable(panes, lower) && KeepsNumbers(lower)
    requires CaseVariants(panes, p, q, lower) && GroupSize(panes, p) > 1 && GroupSize(panes, q) > 1
    ensures broken in panes && !Resolves(panes, broken, lower)
  {
    var r := FirstMeans(panes, p, lower);
    var s := FirstMeans(panes, q, lower);
    SidsTell(panes, r, s);
    broken := if Resolves(panes, r, lower) then s else r;
  }

  lemma {:induction false} CaseVariantsBreakResolve(panes: seq<PaneRef>, p: PaneRef, q: PaneRef, lower: Lowering)
    returns (broken: PaneRef)
    requires DistinctSids(panes) && AllSpeakable(panes, lower) && KeepsNumbers(lower)
    requires CaseVariants(panes, p, q, lower)
    ensures broken in panes && !Resolves(panes, broken, lower)
  {
    NameIsRank(panes, p);
    NameIsRank(panes, q);
    if GroupSize(panes, p) == 1 {
      LoneVariantIsAmbiguous(panes, p, q, lower);
      broken := p;
    } else if GroupSize(panes, q) == 1 {
      LoneVariantIsAmbiguous(panes, q, p, lower);
      broken := q;
    } else {
      broken := SharedVariantsClash(panes, p, q, lower);
    }
  }

  /**
   `resolve` inverts `assign`, exactly: with names that survive trimming, lower-casing and splitting,
   every name handed out means its pane if and only if no two base names differ in case only.
   */
  lemma {:induction false} ResolveInvertsAssignIff(panes: seq<PaneRef>, lower: Lowering)
    requires DistinctSids(panes) && |panes| < USIZE_SPAN && KeepsNumbers(lower) && AllSpeakable(panes, lower)
    ensures (forall p :: p in panes ==> Meaning(NameOf(panes, p), panes, lower) == Ok(p.sid))
            <==> forall p, q :: !CaseVariants(panes, p, q, lower)
  {
    if p, q :| CaseVariants(panes, p, q, lower) {
      var broken := CaseVariantsBreakResolve(panes, p, q, lower);
    } else {
      forall p, q | p in panes && q in panes && lower(BaseName(p.cwd)) == lower(BaseName(q.cwd))
        ensures BaseName(p.cwd) == BaseName(q.cwd)
      {
        assert !CaseVariants(panes, p, q, lower);
      }
      forall p | p in panes ensures Meaning(NameOf(panes, p), panes, lower) == Ok(p.sid) {
        ResolveUndoesAssign(panes, p, lower);
      }
    }
  }

  lemma {:induction false} TwoVariants(panes: seq<PaneRef>, p: PaneRef, q: PaneRef, lower: Lowering)
    requires panes == [p, q] && p.sid != q.sid && Speakable(BaseName(p.cwd), lower) && Speakable(BaseName(q.cwd), lower)
    requires BaseName(p.cwd) != BaseName(q.cwd) && lower(BaseName(p.cwd)) == lower(BaseName(q.cwd))
    requires Peers(panes, BaseName(p.cwd)) == [p] && Peers(panes, BaseName(q.cwd)) == [q]
    ensures NameOf(panes, p) == BaseName(p.cwd) && NameOf(panes, q) == BaseName(q.cwd)
    ensures Meaning(BaseName(p.cwd), panes, lower).Err?
  {
    assert panes[0] == p && panes[1] == q;
    NameIsRank(panes, q);
    LoneVariantIsAmbiguous(panes, p, q, lower);
  }

  /** `Spg` and `spg`: no two panes share a name, and yet `Spg` is ambiguous. */
  lemma {:induction false} CaseVariantIsAmbiguous(p: PaneRef, q: PaneRef, lower: Lowering)
    requires p == PaneRef(1, "Spg", None) && q == PaneRef(2, "spg", None)
    requires lower("Spg") == "spg" && lower("spg") == "spg"
    ensures NameOf([p, q], p) == "Spg" && NameOf([p, q], q) == "spg" && Meaning("Spg", [p, q], lower).Err?
  {
    SpgIsSpeakable(lower);
    PeersOfTwo(p, q, "Spg", "spg");
    TwoVariants([p, q], p, q, lower);
  }

  lemma {:induction false} PeersOfTwo(p: PaneRef, q: PaneRef, b: string, c: string)
    requires BaseName(p.cwd) == b && BaseName(q.cwd) == c && b != c
    ensures Peers([p, q], b) == [p] && Peers([p, q], c) == [q]
  {
    assert [p, q][..1] == [p] && [p][..0] == [];
    assert Peers([p], b) == [p] && Peers([p], c) == [];
  }

  lemma {:induction false} WordIsSpeakable(w: string, v: string, lower: Lowering)
    requires w != "" && '/' !in w && !IsWhitespace(w[0]) && !IsWhitespace(w[|w| - 1])
    requires lower(w) == v && v != "" && '#' !in v
    ensures BaseName(w) == w && Speakable(w, lower)
  {
    PlainDirectory(w);
    TrimmedWord(w);
  }

  lemma {:induction false} SpgIsSpeakable(lower: Lowering)
    requires lower("Spg") == "spg" && lower("spg") == "spg"
    ensures BaseName("Spg") == "Spg" && BaseName("spg") == "spg" && Speakable("Spg", lower) && Speakable("spg", lower)
  {
    WordIsSpeakable("Spg", "spg", lower);
    WordIsSpeakable("spg", "spg", lower);
  }

  lemma {:induction false} TrimmedWord(w: string)
    requires w != "" && !IsWhitespace(w[0]) && !IsWhitespace(w[|w| - 1])
    ensures Trim(w) == w
  {
  }

  lemma {:induction false} TailOfTail(c: string, front: string, t: string)
    requires EndsWith(c, front + t)
    ensures EndsWith(c, t)
  {
    var whole := front + t;
    assert c[|c| - |t|..] == c[|c| - |whole|..][|front|..];
  }

  /** Putting a parent in front of a path tail never matches more directories. */
  lemma {:induction false} ParentNarrows(cwd: string, parent: string, t: string, lower: Lowering)
    requires Matches(cwd, parent + "/" + t, lower)
    ensures Matches(cwd, t, lower)
  {
    var c := lower(TrimSlashes(cwd));
    assert (parent + "/" + t)[|parent|] == '/';
    if c == parent + "/" + t {
      assert c == parent + ("/" + t) && c[|c| - |c|..] == c;
      TailOfTail(c, parent, "/" + t);
    } else {
      assert "/" + (parent + "/" + t) == ("/" + parent) + ("/" + t);
      TailOfTail(c, "/" + parent, "/" + t);
    }
    TailOfTail(c, "/", t);
    assert Occurs(c, t, |c| - |t|);
  }
}

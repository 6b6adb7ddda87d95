/** Pane names: what a pane is called and which one a name means, src/pane_name.rs. */
module PaneNames {
  import opened Wrappers
  import opened Text

  datatype PaneRef = PaneRef(sid: nat, cwd: string, at: Option<(nat, nat, nat)>)

  const USIZE_SPAN := 0x1_0000_0000_0000_0000

  /* ---------------------------------------------------------------- directory names */

  function TrimSlashes(s: string): string {
    if s != "" && s[|s| - 1] == '/' then TrimSlashes(s[..|s| - 1]) else s
  }

  /** What stands behind the last `c`; the whole text when there is none. */
  function AfterLast(s: string, c: char): (r: string)
    ensures c !in r
  {
    if s == "" || s[|s| - 1] == c then "" else AfterLast(s[..|s| - 1], c) + [s[|s| - 1]]
  }

  function BaseName(cwd: string): (b: string)
    ensures b != ""
  {
    var b := AfterLast(TrimSlashes(cwd), '/');
    if b == "" then "?" else b
  }

  /* ---------------------------------------------------------------- reading order */

  predicate TupleLess(a: (nat, nat, nat), b: (nat, nat, nat)) {
    a.0 < b.0 || (a.0 == b.0 && (a.1 < b.1 || (a.1 == b.1 && a.2 < b.2)))
  }

  function AtOrZero(p: PaneRef): (nat, nat, nat) {
    if p.at.Some? then p.at.value else (0, 0, 0)
  }

  /** The sort key: panes on screen first, in reading order, then the rest; ties by session. */
  predicate KeyLess(p: PaneRef, q: PaneRef) {
    if p.at.None? != q.at.None? then q.at.None?
    else TupleLess(AtOrZero(p), AtOrZero(q)) || (AtOrZero(p) == AtOrZero(q) && p.sid < q.sid)
  }

  function Insert(s: seq<PaneRef>, p: PaneRef): (r: seq<PaneRef>)
    ensures multiset(r) == multiset(s) + multiset{p}
  {
    if s == [] || KeyLess(p, s[0]) then
      assert [p] + s == [p] + s;
      [p] + s
    else
      assert s == [s[0]] + s[1..];
      [s[0]] + Insert(s[1..], p)
  }

  /** `sort_by_key`. */
  function SortPanes(s: seq<PaneRef>): (r: seq<PaneRef>)
    ensures multiset(r) == multiset(s) && |r| == |s|
  {
    if s == [] then []
    else
      assert s == [s[0]] + s[1..];
      var r := Insert(SortPanes(s[1..]), s[0]);
      assert |r| == |multiset(r)| && |s| == |multiset(s)|;
      r
  }

  /* ---------------------------------------------------------------- assign */

  /** The panes with that base name, in input order. */
  function Peers(panes: seq<PaneRef>, base: string): seq<PaneRef> {
    if |panes| == 0 then []
    else
      var n := |panes| - 1;
      Peers(panes[..n], base) + (if BaseName(panes[n].cwd) == base then [panes[n]] else [])
  }

  /** `position`: index of the first pane with that session. */
  function PositionOf(s: seq<PaneRef>, sid: nat): Option<nat> {
    if s == [] then None
    else if s[0].sid == sid then Some(0)
    else
      match PositionOf(s[1..], sid)
      case None => None
      case Some(i) => Some(i + 1)
  }

  function OrZero(i: Option<nat>): nat {
    if i.Some? then i.value else 0
  }

  function Decimal(n: nat): (r: string)
    ensures r != ""
  {
    if n < 10 then [(n + 48) as char] else Decimal(n / 10) + [(n % 10 + 48) as char]
  }

  function Numbered(base: string, k: nat): string {
    base + "#" + Decimal(k)
  }

  /** Plain when alone, else numbered by position among the sorted peers. */
  function NameAmong(base: string, peers: seq<PaneRef>, sid: nat): string {
    if |peers| == 1 then base else Numbered(base, OrZero(PositionOf(peers, sid)) + 1)
  }

  /** The display name `assign` gives `p`. */
  function NameOf(panes: seq<PaneRef>, p: PaneRef): string {
    NameAmong(BaseName(p.cwd), SortPanes(Peers(panes, BaseName(p.cwd))), p.sid)
  }

  method FirstPosition(s: seq<PaneRef>, sid: nat) returns (found: Option<nat>)
    ensures found == PositionOf(s, sid)
  {
    var i := 0;
    while i < |s|
      invariant i <= |s|
      invariant PositionOf(s, sid) ==
                match PositionOf(s[i..], sid) case None => None case Some(k) => Some(i + k)
    {
      if s[i].sid == sid {
        return Some(i);
      }
      assert s[i..][1..] == s[i + 1..];
      i := i + 1;
    }
    return None;
  }

  lemma {:induction false} PeersStep(panes: seq<PaneRef>, i: nat, base: string)
    requires i < |panes|
    ensures Peers(panes[..i + 1], base) ==
            Peers(panes[..i], base) + (if BaseName(panes[i].cwd) == base then [panes[i]] else [])
  {
    assert panes[..i + 1][..i] == panes[..i];
  }

  /** `groups` holds the peers of every name among the panes, and no other name. */
  ghost predicate Grouped(groups: map<string, seq<PaneRef>>, panes: seq<PaneRef>) {
    forall b: string :: Peers(panes, b) == if b in groups then groups[b] else []
  }

  lemma {:induction false} GroupedStep(groups: map<string, seq<PaneRef>>, panes: seq<PaneRef>, i: nat)
    requires i < |panes| && Grouped(groups, panes[..i])
    ensures var base := BaseName(panes[i].cwd);
            Grouped(groups[base := (if base in groups then groups[base] else []) + [panes[i]]], panes[..i + 1])
  {
    var base := BaseName(panes[i].cwd);
    var next := groups[base := (if base in groups then groups[base] else []) + [panes[i]]];
    forall b: string ensures Peers(panes[..i + 1], b) == if b in next then next[b] else [] {
      PeersStep(panes, i, b);
    }
  }

  lemma {:induction false} PeersIncludes(panes: seq<PaneRef>, i: nat)
    requires i < |panes|
    ensures panes[i] in Peers(panes, BaseName(panes[i].cwd))
  {
    var n, base := |panes| - 1, BaseName(panes[i].cwd);
    if i < n {
      assert panes[..n][i] == panes[i];
      PeersIncludes(panes[..n], i);
    } else {
      assert Peers(panes, base) == Peers(panes[..n], base) + [panes[n]];
    }
  }

  /** The panes by base name, each group in input order. */
  method Group(panes: seq<PaneRef>) returns (groups: map<string, seq<PaneRef>>)
    ensures Grouped(groups, panes)
  {
    groups := map[];
    for i := 0 to |panes|
      invariant Grouped(groups, panes[..i])
    {
      GroupedStep(groups, panes, i);
      var base := BaseName(panes[i].cwd);
      groups := groups[base := (if base in groups then groups[base] else []) + [panes[i]]];
    }
    assert panes[..|panes|] == panes;
  }

  /** Every group sorted into reading order. */
  method SortGroups(groups: map<string, seq<PaneRef>>) returns (sorted: map<string, seq<PaneRef>>)
    ensures sorted.Keys == groups.Keys
    ensures forall b :: b in groups ==> sorted[b] == SortPanes(groups[b])
  {
    sorted := groups;
    var left := groups.Keys;
    while left != {}
      invariant sorted.Keys == groups.Keys && left <= groups.Keys
      invariant forall b :: b in groups ==> sorted[b] == if b in left then groups[b] else SortPanes(groups[b])
    {
      var b :| b in left;
      left := left - {b};
      sorted := sorted[b := SortPanes(sorted[b])];
    }
  }

  /** What `assign` returns: each pane's session and name, in input order. */
  function Names(panes: seq<PaneRef>): (names: seq<(nat, string)>)
    ensures |names| == |panes|
    ensures forall i :: 0 <= i < |panes| ==> names[i] == (panes[i].sid, NameOf(panes, panes[i]))
  {
    seq(|panes|, i requires 0 <= i < |panes| => (panes[i].sid, NameOf(panes, panes[i])))
  }

  method NameIn(sorted: map<string, seq<PaneRef>>, p: PaneRef, ghost panes: seq<PaneRef>) returns (name: string)
    requires BaseName(p.cwd) in sorted
    requires sorted[BaseName(p.cwd)] == SortPanes(Peers(panes, BaseName(p.cwd)))
    ensures name == NameOf(panes, p)
  {
    var base := BaseName(p.cwd);
    var peers := sorted[base];
    if |peers| == 1 {
      return base;
    }
    var k := FirstPosition(peers, p.sid);
    name := Numbered(base, OrZero(k) + 1);
  }

  lemma {:induction false} GroupOf(groups: map<string, seq<PaneRef>>, panes: seq<PaneRef>, i: nat)
    requires Grouped(groups, panes) && i < |panes|
    ensures BaseName(panes[i].cwd) in groups && groups[BaseName(panes[i].cwd)] == Peers(panes, BaseName(panes[i].cwd))
  {
    PeersIncludes(panes, i);
  }

  /** One entry, from the sorted groups. */
  method EntryOf(sorted: map<string, seq<PaneRef>>, panes: seq<PaneRef>, i: nat) returns (entry: (nat, string))
    requires i < |panes| && BaseName(panes[i].cwd) in sorted
    requires sorted[BaseName(panes[i].cwd)] == SortPanes(Peers(panes, BaseName(panes[i].cwd)))
    ensures entry == Names(panes)[i]
  {
    var name := NameIn(sorted, panes[i], panes);
    entry := (panes[i].sid, name);
  }

  ghost predicate GroupsSorted(sorted: map<string, seq<PaneRef>>, panes: seq<PaneRef>) {
    forall i :: 0 <= i < |panes| ==>
      BaseName(panes[i].cwd) in sorted
      && sorted[BaseName(panes[i].cwd)] == SortPanes(Peers(panes, BaseName(panes[i].cwd)))
  }

  /** Every pane's group, sorted into reading order. */
  method SortedGroups(panes: seq<PaneRef>) returns (sorted: map<string, seq<PaneRef>>)
    ensures GroupsSorted(sorted, panes)
  {
    var groups := Group(panes);
    sorted := SortGroups(groups);
    forall i | 0 <= i < |panes|
      ensures BaseName(panes[i].cwd) in sorted
              && sorted[BaseName(panes[i].cwd)] == SortPanes(Peers(panes, BaseName(panes[i].cwd)))
    {
      GroupOf(groups, panes, i);
    }
  }

  lemma {:induction false} PrefixGrows<T>(s: seq<T>, i: nat)
    requires i < |s|
    ensures s[..i + 1] == s[..i] + [s[i]]
  {
  }

  method Assign(panes: seq<PaneRef>) returns (names: seq<(nat, string)>)
    ensures |names| == |panes|
    ensures forall i :: 0 <= i < |panes| ==> names[i] == (panes[i].sid, NameOf(panes, panes[i]))
  {
    var sorted := SortedGroups(panes);
    names := [];
    for i := 0 to |panes|
      invariant names == Names(panes)[..i]
    {
      var entry := EntryOf(sorted, panes, i);
      PrefixGrows(Names(panes), i);
      names := names + [entry];
    }
    PrefixWhole(Names(panes));
  }

  lemma {:induction false} PrefixWhole<T>(s: seq<T>)
    ensures s[..|s|] == s
  {
  }

  /* ---------------------------------------------------------------- resolve */

  /** `str::to_lowercase`; its table is not part of this model, so it is a parameter. */
  type Lowering = string -> string

  datatype Miss = EmptyTarget | NoSuchNumber(k: nat, count: nat) | Ambiguous(sids: seq<nat>) | NoMatch

  function BeforeLast(s: string, c: char): string
    requires c in s
  {
    if s[|s| - 1] == c then s[..|s| - 1]
    else
      assert s == s[..|s| - 1] + [s[|s| - 1]];
      BeforeLast(s[..|s| - 1], c)
  }

  /** Only digits, at least one. */
  predicate IsNumeral(s: string) {
    |s| > 0 && forall i :: 0 <= i < |s| ==> IsDigit(s[i])
  }

  function DigitsValue(s: string): nat
    requires forall i :: 0 <= i < |s| ==> IsDigit(s[i])
  {
    if s == "" then 0
    else
      assert IsDigit(s[|s| - 1]);
      DigitsValue(s[..|s| - 1]) * 10 + (s[|s| - 1] as int - 48)
  }

  /** `str::parse::<usize>`: an optional plus sign, then digits, within range. */
  function ParseUsize(s: string): Option<nat> {
    var d := if |s| > 0 && s[0] == '+' then s[1..] else s;
    if !IsNumeral(d) then None
    else if DigitsValue(d) < USIZE_SPAN then Some(DigitsValue(d))
    else None
  }

  function SplitNumber(t: string): (string, Option<nat>) {
    if '#' !in t || BeforeLast(t, '#') == "" then (t, None)
    else
      match ParseUsize(AfterLast(t, '#'))
      case Some(k) => (BeforeLast(t, '#'), Some(k))
      case None => (t, None)
  }

  predicate EndsWith(s: string, t: string) {
    |t| <= |s| && s[|s| - |t|..] == t
  }

  predicate Contains(s: string, t: string) {
    exists i | 0 <= i <= |s| - |t| :: Occurs(s, t, i)
  }

  predicate Occurs(s: string, t: string, i: int) {
    0 <= i <= |s| - |t| && s[i..i + |t|] == t
  }

  /** The panes whose lower-cased base name is `base`, in input order. */
  function LowerPeers(panes: seq<PaneRef>, base: string, lower: Lowering): seq<PaneRef> {
    if |panes| == 0 then []
    else
      var n := |panes| - 1;
      LowerPeers(panes[..n], base, lower) + (if lower(BaseName(panes[n].cwd)) == base then [panes[n]] else [])
  }

  /** A path tail when the target has a slash, else a substring of the directory. */
  predicate Matches(cwd: string, t: string, lower: Lowering) {
    var c := lower(TrimSlashes(cwd));
    if '/' in t then c == t || EndsWith(c, "/" + t) else Contains(c, t)
  }

  function Hits(panes: seq<PaneRef>, t: string, lower: Lowering): seq<nat> {
    if |panes| == 0 then []
    else
      var n := |panes| - 1;
      Hits(panes[..n], t, lower) + (if Matches(panes[n].cwd, t, lower) then [panes[n].sid] else [])
  }

  function Sids(s: seq<PaneRef>): seq<nat> {
    seq(|s|, i requires 0 <= i < |s| => s[i].sid)
  }

  function Pick(group: seq<PaneRef>, want: Option<nat>): Result<nat, Miss>
    requires group != []
  {
    match want
    case Some(k) => if 1 <= k <= |group| then Ok(group[k - 1].sid) else Err(NoSuchNumber(k, |group|))
    case None => if |group| == 1 then Ok(group[0].sid) else Err(Ambiguous(Sids(group)))
  }

  function Meaning(target: string, panes: seq<PaneRef>, lower: Lowering): Result<nat, Miss> {
    var t := lower(Trim(target));
    if t == "" then Err(EmptyTarget)
    else
      var (base, want) := SplitNumber(t);
      var group := SortPanes(LowerPeers(panes, base, lower));
      if group != [] then Pick(group, want)
      else
        var hits := Hits(panes, t, lower);
        if hits == [] then Err(NoMatch)
        else if |hits| == 1 then Ok(hits[0])
        else Err(Ambiguous(hits))
  }

  method PeersOf(panes: seq<PaneRef>, base: string, lower: Lowering) returns (group: seq<PaneRef>)
    ensures group == LowerPeers(panes, base, lower)
  {
    group := [];
    for i := 0 to |panes|
      invariant group == LowerPeers(panes[..i], base, lower)
    {
      assert panes[..i + 1][..i] == panes[..i];
      if lower(BaseName(panes[i].cwd)) == base {
        group := group + [panes[i]];
      }
    }
    assert panes[..|panes|] == panes;
  }

  method HitsOf(panes: seq<PaneRef>, t: string, lower: Lowering) returns (hits: seq<nat>)
    ensures hits == Hits(panes, t, lower)
  {
    hits := [];
    for i := 0 to |panes|
      invariant hits == Hits(panes[..i], t, lower)
    {
      assert panes[..i + 1][..i] == panes[..i];
      if Matches(panes[i].cwd, t, lower) {
        hits := hits + [panes[i].sid];
      }
    }
    assert panes[..|panes|] == panes;
  }

  method Resolve(target: string, panes: seq<PaneRef>, lower: Lowering) returns (r: Result<nat, Miss>)
    ensures r == Meaning(target, panes, lower)
  {
    var t := lower(Trim(target));
    if t == "" {
      return Err(EmptyTarget);
    }
    var (base, want) := SplitNumber(t);
    var group := PeersOf(panes, base, lower);
    group := SortPanes(group);
    if |group| > 0 {
      return Pick(group, want);
    }
    var hits := HitsOf(panes, t, lower);
    return if |hits| == 0 then Err(NoMatch) else if |hits| == 1 then Ok(hits[0]) else Err(Ambiguous(hits));
  }
}

/** What "the cap most recently requested distinct keys" means, on the history of requests. */
module Recency {

  ghost predicate NoRepeats<K>(s: seq<K>) {
    forall i, j :: 0 <= i < j < |s| ==> s[i] != s[j]
  }

  ghost function Keys<K>(s: seq<K>): set<K> {
    set k | k in s
  }

  function Without<K(==)>(s: seq<K>, k: K): seq<K> {
    if s == [] then []
    else if s[0] == k then Without(s[1..], k)
    else [s[0]] + Without(s[1..], k)
  }

  /** The requested keys, each once, latest request first. */
  function Latest<K(==)>(requests: seq<K>): seq<K> {
    if requests == [] then []
    else
      var n := |requests| - 1;
      [requests[n]] + Without(Latest(requests[..n]), requests[n])
  }

  function Prefix<K>(s: seq<K>, n: nat): seq<K> {
    if |s| <= n then s else s[..n]
  }

  /** The `cap` most recently requested distinct keys. */
  function Kept<K(==)>(requests: seq<K>, cap: nat): seq<K> {
    Prefix(Latest(requests), cap)
  }

  /** The keys requested after the last request of `k`. */
  ghost function Since<K>(requests: seq<K>, k: K): set<K> {
    if requests == [] || requests[|requests| - 1] == k then {}
    else Since(requests[..|requests| - 1], k) + {requests[|requests| - 1]}
  }

  /* ---------------------------------------------------------------- lists without a key */

  lemma {:induction false} WithoutDrops<K>(s: seq<K>, k: K)
    requires NoRepeats(s)
    ensures NoRepeats(Without(s, k)) && forall x :: x in Without(s, k) <==> x in s && x != k
    ensures |Without(s, k)| == if k in s then |s| - 1 else |s|
  {
    if s != [] {
      WithoutDrops(s[1..], k);
      assert s == [s[0]] + s[1..];
      assert forall x :: x in s <==> x == s[0] || x in s[1..];
      forall j | 0 <= j < |s[1..]| ensures s[1..][j] != s[0] {
        assert s[j + 1] != s[0];
      }
      var rest := Without(s[1..], k);
      forall j | 0 <= j < |rest| ensures rest[j] != s[0] {
        assert rest[j] in rest;
      }
    }
  }

  lemma {:induction false} WithoutAbsent<K>(s: seq<K>, k: K)
    requires k !in s
    ensures Without(s, k) == s
  {
    if s != [] { WithoutAbsent(s[1..], k); }
  }

  lemma {:induction false} WithoutSplits<K>(s: seq<K>, t: seq<K>, k: K)
    ensures Without(s + t, k) == Without(s, k) + Without(t, k)
  {
    if s == [] {
      assert s + t == t;
    } else {
      assert (s + t)[1..] == s[1..] + t;
      WithoutSplits(s[1..], t, k);
    }
  }

  /* ---------------------------------------------------------------- the recency list */

  lemma {:induction false} LatestListsRequested<K>(requests: seq<K>)
    ensures NoRepeats(Latest(requests)) && forall k :: k in Latest(requests) <==> k in requests
  {
    if requests != [] {
      var n := |requests| - 1;
      LatestListsRequested(requests[..n]);
      WithoutDrops(Latest(requests[..n]), requests[n]);
      assert requests == requests[..n] + [requests[n]];
    }
  }

  /** Moving `last` to the front puts it before `k`, which keeps its other predecessors. */
  lemma {:induction false} MovesUp<K>(front: seq<K>, k: K, back: seq<K>, last: K)
    requires NoRepeats(front) && last != k
    ensures var t, m := [last] + Without(front + [k] + back, last), |Without(front, last)| + 1;
            && m < |t| && t[m] == k && Keys(t[..m]) == Keys(front) + {last}
            && m == |front| + (if last in front then 0 else 1)
  {
    assert front + [k] + back == front + ([k] + back);
    WithoutSplits(front, [k] + back, last);
    WithoutDrops(front, last);
    var t, before := [last] + Without(front + [k] + back, last), [last] + Without(front, last);
    assert Without([k] + back, last)[0] == k;
    assert t == before + Without([k] + back, last);
    assert t[..|before|] == before;
    assert forall x :: x in before <==> x == last || x in front;
    assert Keys(before) == Keys(front) + {last};
  }

  lemma {:induction false} GrowSize<K>(s: set<K>, k: K)
    ensures |s + {k}| == |s| + (if k in s then 0 else 1)
  {
    if k in s { assert s + {k} == s; }
  }

  /** A requested key stands behind exactly the keys requested since. */
  lemma {:induction false} PlaceIsSince<K>(requests: seq<K>, k: K)
    requires k in requests
    ensures var m := |Since(requests, k)|;
            m < |Latest(requests)| && Latest(requests)[m] == k && Keys(Latest(requests)[..m]) == Since(requests, k)
  {
    var n := |requests| - 1;
    var last := requests[n];
    if last == k {
      assert Latest(requests)[..0] == [];
    } else {
      assert requests == requests[..n] + [last];
      PlaceIsSince(requests[..n], k);
      LatestListsRequested(requests[..n]);
      var since := Since(requests[..n], k);
      PlaceAfterOther(Latest(requests[..n]), since, k, last);
    }
  }

  lemma {:induction false} PlaceAfterOther<K>(s: seq<K>, since: set<K>, k: K, last: K)
    requires NoRepeats(s) && |since| < |s| && s[|since|] == k && Keys(s[..|since|]) == since && last != k
    ensures var t, m := [last] + Without(s, last), |since + {last}|;
            m < |t| && t[m] == k && Keys(t[..m]) == since + {last}
  {
    var m := |since|;
    assert s == s[..m] + [k] + s[m + 1..];
    assert last in s[..m] <==> last in Keys(s[..m]);
    MovesUp(s[..m], k, s[m + 1..], last);
    GrowSize(since, last);
  }

  /** A key is kept exactly when it was requested and fewer than `cap` different keys have been requested since. */
  lemma {:induction false} KeptIffRecent<K>(requests: seq<K>, cap: nat, k: K)
    ensures k in Kept(requests, cap) <==> k in requests && |Since(requests, k)| < cap
    ensures NoRepeats(Kept(requests, cap))
  {
    LatestListsRequested(requests);
    var all := Latest(requests);
    if k in requests {
      PlaceIsSince(requests, k);
      var m := |Since(requests, k)|;
      if m < cap { assert Kept(requests, cap)[m] == k; }
      if k in Kept(requests, cap) {
        var i :| 0 <= i < |Kept(requests, cap)| && Kept(requests, cap)[i] == k;
        assert all[i] == k;
      }
    }
  }

  /** How the kept list changes with one more request. */
  lemma {:induction false} KeptStep<K>(requests: seq<K>, cap: nat, k: K)
    requires cap > 0
    ensures var kept := Kept(requests, cap);
            Kept(requests + [k], cap) ==
            if k in kept then [k] + Without(kept, k) else [k] + Prefix(kept, cap - 1)
  {
    var all, kept := Latest(requests), Kept(requests, cap);
    assert (requests + [k])[..|requests|] == requests;
    LatestListsRequested(requests);
    WithoutDrops(all, k);
    if |all| <= cap {
      WithoutDrops(kept, k);
      if k !in kept { WithoutAbsent(all, k); }
    } else {
      var tail := all[cap..];
      assert all == kept + tail;
      WithoutSplits(kept, tail, k);
      WithoutDrops(kept, k);
      if k in kept {
        assert forall j :: 0 <= j < |tail| ==> tail[j] == all[cap + j];
        WithoutAbsent(tail, k);
      } else {
        WithoutAbsent(kept, k);
      }
    }
  }
}

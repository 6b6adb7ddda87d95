/** The sort of the usage feed by account name and e-mail, and when it forgets the feed's own order. */
module FeedOrder {
  import opened NaturalOrder

  /** `rest` stands for the fields the order does not look at. */
  datatype Account = Account(name: Text, email: Text, rest: int)

  /** By name, then by e-mail. */
  function CompareAccounts(a: Account, b: Account): Ordering {
    Natural(a.name, b.name).Then(CompareBytes(a.email, b.email))
  }

  lemma {:induction false} BytesReflexive(x: Text)
    ensures CompareBytes(x, x) == Equal
  {
    if |x| > 0 { BytesReflexive(x[1..]); }
  }

  lemma {:induction false} BytesReverse(x: Text, y: Text)
    ensures CompareBytes(y, x) == CompareBytes(x, y).Reverse()
  {
    if |x| > 0 && |y| > 0 { BytesReverse(x[1..], y[1..]); }
  }

  lemma {:induction false} BytesTransitive(x: Text, y: Text, z: Text)
    requires CompareBytes(x, y) != Greater && CompareBytes(y, z) != Greater
    ensures CompareBytes(x, z) != Greater
    ensures CompareBytes(x, y) == Less || CompareBytes(y, z) == Less ==> CompareBytes(x, z) == Less
  {
    if |x| > 0 && |y| > 0 && |z| > 0 && x[0] == y[0] == z[0] { BytesTransitive(x[1..], y[1..], z[1..]); }
  }

  lemma {:induction false} AccountsReverse(a: Account, b: Account)
    ensures CompareAccounts(a, a) == Equal
    ensures CompareAccounts(b, a) == CompareAccounts(a, b).Reverse()
  {
    NaturalIsTotalPreorder(a.name, b.name, b.name);
    BytesReflexive(a.email);
    BytesReverse(a.email, b.email);
  }

  /** A name that comes first decides, whatever the e-mails are; they decide exactly when the names tie. */
  lemma {:induction false} NameDecides(a: Account, b: Account)
    ensures Natural(a.name, b.name) == Less ==> CompareAccounts(a, b) == Less
    ensures Natural(a.name, b.name) == Greater ==> CompareAccounts(a, b) == Greater
    ensures Natural(a.name, b.name) == Equal ==> CompareAccounts(a, b) == CompareBytes(a.email, b.email)
    ensures CompareAccounts(a, b) == Equal <==> Tokens(a.name) == Tokens(b.name) && a.email == b.email
  {
    NaturalIsTotalPreorder(a.name, b.name, b.name);
    if CompareBytes(a.email, b.email) == Equal { BytesEqual(a.email, b.email); }
    BytesReflexive(a.email);
  }

  lemma {:induction false} BytesEqual(x: Text, y: Text)
    requires CompareBytes(x, y) == Equal
    ensures x == y
  {
    if |x| > 0 {
      BytesEqual(x[1..], y[1..]);
      assert x == [x[0]] + x[1..] && y == [y[0]] + y[1..];
    }
  }

  /** The comparator is the total preorder a sort demands. */
  lemma {:induction false} AccountsArePreorder(a: Account, b: Account, c: Account)
    requires CompareAccounts(a, b) != Greater && CompareAccounts(b, c) != Greater
    ensures CompareAccounts(a, c) != Greater
    ensures CompareAccounts(a, b) == Less || CompareAccounts(b, c) == Less ==> CompareAccounts(a, c) == Less
  {
    NaturalIsTotalPreorder(a.name, b.name, c.name);
    NaturalIsTotalPreorder(b.name, c.name, c.name);
    NaturalIsTotalPreorder(a.name, c.name, c.name);
    if Natural(a.name, b.name) == Equal && Natural(b.name, c.name) == Equal {
      BytesTransitive(a.email, b.email, c.email);
    }
  }

  /* ---------------------------------------------------------------- the sort */

  ghost predicate SortedAccounts(s: seq<Account>) {
    forall i, j :: 0 <= i < j < |s| ==> CompareAccounts(s[i], s[j]) != Greater
  }

  /** `r` goes before the accounts it ties with. */
  function Insert(s: seq<Account>, r: Account): (out: seq<Account>)
    ensures multiset(out) == multiset(s) + multiset{r}
  {
    if |s| == 0 || CompareAccounts(r, s[0]) != Greater then [r] + s
    else
      assert s == [s[0]] + s[1..];
      [s[0]] + Insert(s[1..], r)
  }

  /** The stable sort, as insertion from the back. */
  function SortFeed(s: seq<Account>): (out: seq<Account>)
    ensures multiset(out) == multiset(s)
  {
    if |s| == 0 then []
    else
      assert s == [s[0]] + s[1..];
      Insert(SortFeed(s[1..]), s[0])
  }

  lemma {:induction false} SortedHead(a: Account, s: seq<Account>)
    requires SortedAccounts(s) && (|s| > 0 ==> CompareAccounts(a, s[0]) != Greater)
    ensures SortedAccounts([a] + s)
  {
    forall j | 0 <= j < |s| ensures CompareAccounts(a, s[j]) != Greater {
      if j > 0 { AccountsArePreorder(a, s[0], s[j]); }
    }
  }

  lemma {:induction false} InsertSorts(s: seq<Account>, r: Account)
    requires SortedAccounts(s)
    ensures SortedAccounts(Insert(s, r))
  {
    if |s| > 0 && CompareAccounts(r, s[0]) == Greater {
      InsertSorts(s[1..], r);
      AccountsReverse(r, s[0]);
      assert Insert(s[1..], r)[0] == r || (|s| > 1 && Insert(s[1..], r)[0] == s[1]);
      SortedHead(s[0], Insert(s[1..], r));
    } else {
      SortedHead(r, s);
    }
  }

  /** The accounts of `s` that tie with `x`, in order. */
  function Ties(s: seq<Account>, x: Account): seq<Account> {
    if |s| == 0 then []
    else (if CompareAccounts(s[0], x) == Equal then [s[0]] else []) + Ties(s[1..], x)
  }

  lemma {:induction false} NotBothTie(a: Account, b: Account, x: Account)
    requires CompareAccounts(a, b) == Greater
    ensures CompareAccounts(a, x) != Equal || CompareAccounts(b, x) != Equal
  {
    AccountsReverse(b, x);
    if CompareAccounts(a, x) == Equal && CompareAccounts(b, x) == Equal { AccountsArePreorder(a, x, b); }
  }

  lemma {:induction false} InsertIsStable(s: seq<Account>, r: Account, x: Account)
    ensures Ties(Insert(s, r), x) == Ties([r] + s, x)
  {
    assert ([r] + s)[1..] == s;
    if |s| > 0 && CompareAccounts(r, s[0]) == Greater {
      InsertIsStable(s[1..], r, x);
      assert ([r] + s[1..])[1..] == s[1..];
      NotBothTie(r, s[0], x);
    }
  }

  /** Sorting orders the feed, keeps its accounts and keeps tied accounts in feed order. */
  lemma {:induction false} SortFeedSorts(s: seq<Account>, x: Account)
    ensures SortedAccounts(SortFeed(s)) && multiset(SortFeed(s)) == multiset(s)
    ensures Ties(SortFeed(s), x) == Ties(s, x)
  {
    if |s| > 0 {
      SortFeedSorts(s[1..], x);
      InsertSorts(SortFeed(s[1..]), s[0]);
      InsertIsStable(SortFeed(s[1..]), s[0], x);
      assert s == [s[0]] + s[1..] && ([s[0]] + SortFeed(s[1..]))[1..] == SortFeed(s[1..]);
    }
  }

  /** Tied accounts stand in the same order in both. */
  ghost predicate SameTies(s: seq<Account>, t: seq<Account>) {
    forall x :: Ties(s, x) == Ties(t, x)
  }

  lemma {:induction false} TiesAreMembers(s: seq<Account>, x: Account, a: Account)
    requires a in Ties(s, x)
    ensures a in s
  {
    if a !in Ties(s[1..], x) { assert a == s[0]; } else { TiesAreMembers(s[1..], x, a); }
  }

  lemma {:induction false} FirstTiesItself(s: seq<Account>)
    requires |s| > 0
    ensures |Ties(s, s[0])| > 0 && Ties(s, s[0])[0] == s[0]
  {
    AccountsReverse(s[0], s[0]);
  }

  /** The first account of a sorted list comes before all its members. */
  lemma {:induction false} FirstIsLeast(s: seq<Account>, a: Account)
    requires SortedAccounts(s) && a in s
    ensures CompareAccounts(s[0], a) != Greater
  {
    AccountsReverse(a, a);
  }

  lemma {:induction false} SameTiesSameFirst(s: seq<Account>, t: seq<Account>)
    requires SortedAccounts(s) && SortedAccounts(t) && |s| > 0 && |t| > 0
    requires SameTies(s, t)
    ensures s[0] == t[0]
  {
    FirstTiesItself(s);
    FirstTiesItself(t);
    assert Ties(t, s[0])[0] == s[0] && Ties(s, t[0])[0] == t[0];
    TiesAreMembers(t, s[0], s[0]);
    TiesAreMembers(s, t[0], t[0]);
    FirstIsLeast(s, t[0]);
    FirstIsLeast(t, s[0]);
    AccountsReverse(t[0], s[0]);
    assert Ties(t, s[0])[0] == t[0];
  }

  lemma {:induction false} SameTiesSameList(s: seq<Account>, t: seq<Account>)
    requires SortedAccounts(s) && SortedAccounts(t)
    requires SameTies(s, t)
    ensures s == t
  {
    if |s| > 0 { FirstTiesItself(s); }
    if |t| > 0 { FirstTiesItself(t); }
    if |s| > 0 {
      SameTiesSameFirst(s, t);
      forall x ensures Ties(s[1..], x) == Ties(t[1..], x) {
        assert Ties(s, x) == Ties(t, x);
        var head := if CompareAccounts(s[0], x) == Equal then [s[0]] else [];
        assert Ties(s[1..], x) == Ties(s, x)[|head|..] && Ties(t[1..], x) == Ties(t, x)[|head|..];
      }
      SameTiesSameList(s[1..], t[1..]);
      assert s == [s[0]] + s[1..] && t == [t[0]] + t[1..];
    }
  }

  lemma {:induction false} SortFeedIsStable(s: seq<Account>)
    ensures SortedAccounts(SortFeed(s)) && SameTies(SortFeed(s), s)
  {
    if |s| > 0 { SortFeedSorts(s, s[0]); }
    forall x ensures Ties(SortFeed(s), x) == Ties(s, x) {
      SortFeedSorts(s, x);
    }
  }

  /** Whatever the algorithm: a sorted list that keeps tied accounts in feed order is this one. */
  lemma {:induction false} StableSortIsUnique(s: seq<Account>, t: seq<Account>)
    ensures t == SortFeed(s) <==> SortedAccounts(t) && SameTies(t, s)
  {
    SortFeedIsStable(s);
    if SortedAccounts(t) && SameTies(t, s) { SameTiesSameList(SortFeed(s), t); }
  }

  lemma {:induction false} SortedIsFixed(s: seq<Account>)
    requires SortedAccounts(s)
    ensures SortFeed(s) == s
  {
    if |s| > 0 { SortedIsFixed(s[1..]); }
  }

  /* ---------------------------------------------------------------- forgetting the feed's order */

  /** Accounts that compare equal are the same account. */
  ghost predicate TiesAreEqual(s: seq<Account>) {
    forall a, b :: a in s && b in s && CompareAccounts(a, b) == Equal ==> a == b
  }

  lemma {:induction false} SameFirst(s: seq<Account>, t: seq<Account>)
    requires SortedAccounts(s) && SortedAccounts(t) && TiesAreEqual(s)
    requires multiset(s) == multiset(t) && |s| > 0 && |t| > 0
    ensures s[0] == t[0]
  {
    assert s[0] in multiset(t) && t[0] in multiset(s);
    var k :| 0 <= k < |t| && t[k] == s[0];
    var m :| 0 <= m < |s| && s[m] == t[0];
    if k > 0 && m > 0 { AccountsReverse(s[0], s[m]); }
  }

  lemma {:induction false} SameTails<T>(s: seq<T>, t: seq<T>)
    requires multiset(s) == multiset(t) && |s| > 0 && |t| > 0 && s[0] == t[0]
    ensures multiset(s[1..]) == multiset(t[1..])
  {
    assert s == [s[0]] + s[1..] && t == [t[0]] + t[1..];
    assert multiset(s) == multiset{s[0]} + multiset(s[1..]) && multiset(t) == multiset{t[0]} + multiset(t[1..]);
    assert multiset(s[1..]) == multiset(s) - multiset{s[0]} && multiset(t[1..]) == multiset(t) - multiset{t[0]};
  }

  lemma {:induction false} SameLength<T>(s: seq<T>, t: seq<T>)
    requires multiset(s) == multiset(t)
    ensures |s| == |t|
  {
    assert |multiset(s)| == |s| && |multiset(t)| == |t|;
  }

  lemma {:induction false} SortedFeedIsUnique(s: seq<Account>, t: seq<Account>)
    requires SortedAccounts(s) && SortedAccounts(t) && TiesAreEqual(s) && multiset(s) == multiset(t)
    ensures s == t
  {
    SameLength(s, t);
    if |s| > 0 {
      SameFirst(s, t);
      SameTails(s, t);
      SortedFeedIsUnique(s[1..], t[1..]);
      assert s == [s[0]] + s[1..] && t == [t[0]] + t[1..];
    }
  }

  lemma {:induction false} SameMembers(s: seq<Account>, t: seq<Account>)
    requires multiset(s) == multiset(t)
    ensures forall a :: a in s <==> a in t
  {
    forall a ensures a in s <==> a in t {
      assert a in s <==> a in multiset(s);
      assert a in t <==> a in multiset(t);
    }
  }

  /** Two different accounts that tie, swapped in a sorted feed, leave it sorted. */
  lemma {:induction false} SwapTies(s: seq<Account>, i: nat, j: nat) returns (t: seq<Account>)
    requires SortedAccounts(s) && i < j < |s| && s[i] != s[j] && CompareAccounts(s[i], s[j]) == Equal
    ensures SortedAccounts(t) && multiset(t) == multiset(s) && t != s
  {
    t := s[i := s[j]][j := s[i]];
    assert t[i] != s[i];
    forall p, q | 0 <= p < q < |t| ensures CompareAccounts(t[p], t[q]) != Greater {
      AccountsReverse(s[i], s[j]);
      SortedWithin(s, i, j, p, q, t[p], t[q]);
    }
  }

  /** Positions `p < q`, each holding its own account or the tied one of the other of `i` and `j`, are in order. */
  lemma {:induction false} SortedWithin(s: seq<Account>, i: nat, j: nat, p: nat, q: nat, a: Account, b: Account)
    requires SortedAccounts(s) && i < |s| && j < |s| && p < q < |s|
    requires CompareAccounts(s[i], s[j]) == Equal && CompareAccounts(s[j], s[i]) == Equal
    requires a == s[p] || (p == i && a == s[j]) || (p == j && a == s[i])
    requires b == s[q] || (q == i && b == s[j]) || (q == j && b == s[i])
    ensures CompareAccounts(a, b) != Greater
  {
    AccountsReverse(s[p], s[q]);
    AccountsReverse(s[q], s[p]);
    AccountsArePreorder(a, s[p], s[q]);
    AccountsArePreorder(a, s[q], b);
  }

  lemma {:induction false} ForgetsWithoutTies(feed: seq<Account>, t: seq<Account>)
    requires TiesAreEqual(feed) && multiset(t) == multiset(feed)
    ensures SortFeed(t) == SortFeed(feed)
  {
    if |feed| > 0 {
      SortFeedSorts(t, feed[0]);
      SortFeedSorts(feed, feed[0]);
      SameMembers(SortFeed(feed), feed);
      SortedFeedIsUnique(SortFeed(feed), SortFeed(t));
    } else {
      SameLength(t, feed);
    }
  }

  lemma {:induction false} TieShowsFeedOrder(feed: seq<Account>, a: Account, b: Account) returns (t: seq<Account>)
    requires a in feed && b in feed && CompareAccounts(a, b) == Equal && a != b
    ensures multiset(t) == multiset(feed) && SortFeed(t) != SortFeed(feed)
  {
    var s := SortFeed(feed);
    SortFeedSorts(feed, a);
    SameMembers(s, feed);
    AccountsReverse(a, b);
    var i :| 0 <= i < |s| && s[i] == a;
    var j :| 0 <= j < |s| && s[j] == b;
    t := SwapTies(s, if i < j then i else j, if i < j then j else i);
    SortedIsFixed(t);
  }

  /** Shuffling the feed never shows exactly when accounts that compare equal are the same account. */
  lemma {:induction false} SortForgetsFeedOrder(feed: seq<Account>)
    ensures (forall t :: multiset(t) == multiset(feed) ==> SortFeed(t) == SortFeed(feed)) <==> TiesAreEqual(feed)
  {
    if TiesAreEqual(feed) {
      forall t | multiset(t) == multiset(feed) ensures SortFeed(t) == SortFeed(feed) {
        ForgetsWithoutTies(feed, t);
      }
    } else {
      var a, b :| a in feed && b in feed && CompareAccounts(a, b) == Equal && a != b;
      var t := TieShowsFeedOrder(feed, a, b);
    }
  }
}

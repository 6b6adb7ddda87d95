/** The natural-order comparator of src/cc_usage.rs: a total preorder on names. */
module NaturalOrder {
  import opened Wrappers

  type Text = seq<Byte>

  datatype Ordering = Less | Equal | Greater {
    function Reverse(): Ordering {
      match this case Less => Greater case Equal => Equal case Greater => Less
    }
    function Then(next: Ordering): Ordering {
      if this == Equal then next else this
    }
  }

  function CompareInt(x: int, y: int): Ordering {
    if x < y then Less else if x == y then Equal else Greater
  }

  /** Byte-string order: the first differing byte decides, a prefix comes first. */
  function CompareBytes(x: Text, y: Text): Ordering {
    if |x| == 0 || |y| == 0 then CompareInt(|x|, |y|)
    else CompareInt(x[0], y[0]).Then(CompareBytes(x[1..], y[1..]))
  }

  /* ---------------------------------------------------------------- tokens */

  predicate IsDigit(b: Byte) {
    48 <= b <= 57
  }

  predicate Digits(d: Text) {
    forall i :: 0 <= i < |d| ==> IsDigit(d[i])
  }

  function Pow10(n: nat): (p: nat)
    ensures p > 0
  {
    if n == 0 then 1 else 10 * Pow10(n - 1)
  }

  /** The decimal value of a digit string. */
  function Decimal(d: Text): nat
    requires Digits(d)
  {
    if |d| == 0 then 0 else (d[0] - 48) * Pow10(|d| - 1) + Decimal(d[1..])
  }

  /** Length of the digit run `s` starts with. */
  function RunLength(s: Text): (n: nat)
    ensures n <= |s| && Digits(s[..n]) && (n < |s| ==> !IsDigit(s[n]))
  {
    if |s| == 0 || !IsDigit(s[0]) then 0
    else
      var n := 1 + RunLength(s[1..]);
      assert s[..n] == [s[0]] + s[1..][..n - 1];
      n
  }

  /** What a reader compares: numbers for digit runs, single bytes for the rest. */
  datatype Token = Number(value: nat) | Other(b: Byte)

  function Tokens(s: Text): seq<Token>
    decreases |s|
  {
    if |s| == 0 then []
    else if IsDigit(s[0]) then
      var n := RunLength(s);
      assert n > 0;
      [Number(Decimal(s[..n]))] + Tokens(s[n..])
    else [Other(s[0])] + Tokens(s[1..])
  }

  /** A number stands where its first digit would among the bytes. */
  function CompareToken(x: Token, y: Token): Ordering {
    match (x, y)
    case (Number(m), Number(n)) => CompareInt(m, n)
    case (Other(a), Other(b)) => CompareInt(a, b)
    case (Number(_), Other(b)) => if b > 57 then Less else Greater
    case (Other(a), Number(_)) => if a > 57 then Greater else Less
  }

  function CompareTokens(x: seq<Token>, y: seq<Token>): Ordering {
    if |x| == 0 || |y| == 0 then CompareInt(|x|, |y|)
    else CompareToken(x[0], y[0]).Then(CompareTokens(x[1..], y[1..]))
  }

  /** No `Other` token is a digit. */
  predicate Lexed(x: seq<Token>) {
    forall i :: 0 <= i < |x| && x[i].Other? ==> !IsDigit(x[i].b)
  }

  lemma {:induction false} TokensLexed(s: Text)
    ensures Lexed(Tokens(s))
    decreases |s|
  {
    if |s| > 0 {
      if IsDigit(s[0]) { TokensLexed(s[RunLength(s)..]); } else { TokensLexed(s[1..]); }
    }
  }

  /* ---------------------------------------------------------------- digit runs */

  function StripZeros(d: Text): (r: Text)
    ensures |r| <= |d| && r == d[|d| - |r|..] && (|r| > 0 ==> r[0] != 48)
  {
    if |d| > 0 && d[0] == 48 then StripZeros(d[1..]) else d
  }

  lemma {:induction false} StripKeepsDecimal(d: Text)
    requires Digits(d)
    ensures Digits(StripZeros(d)) && Decimal(StripZeros(d)) == Decimal(d)
  {
    if |d| > 0 && d[0] == 48 { StripKeepsDecimal(d[1..]); }
  }

  lemma {:induction false} MulLe(x: nat, y: nat, p: nat)
    requires x <= y
    ensures x * p <= y * p
  {
  }

  lemma {:induction false} DecimalBound(d: Text)
    requires Digits(d)
    ensures Decimal(d) < Pow10(|d|)
    ensures |d| > 0 && d[0] != 48 ==> Decimal(d) >= Pow10(|d| - 1)
  {
    if |d| > 0 {
      var p := Pow10(|d| - 1);
      DecimalBound(d[1..]);
      MulLe(d[0] - 48, 9, p);
      if d[0] != 48 { MulLe(1, d[0] - 48, p); }
    }
  }

  lemma {:induction false} PowMono(m: nat, n: nat)
    requires m <= n
    ensures Pow10(m) <= Pow10(n)
  {
    if m < n { PowMono(m, n - 1); }
  }

  /** Digit strings of one length compare by value as they compare byte by byte. */
  lemma {:induction false} SameLengthDecimal(d: Text, e: Text)
    requires Digits(d) && Digits(e) && |d| == |e|
    ensures CompareBytes(d, e) == CompareInt(Decimal(d), Decimal(e))
  {
    if |d| > 0 {
      var p := Pow10(|d| - 1);
      DecimalBound(d[1..]);
      DecimalBound(e[1..]);
      SameLengthDecimal(d[1..], e[1..]);
      if d[0] < e[0] { Step10(d[0] - 48, e[0] - 48, p); }
      if e[0] < d[0] { Step10(e[0] - 48, d[0] - 48, p); }
    }
  }

  lemma {:induction false} Step10(x: nat, y: nat, p: nat)
    requires x < y
    ensures x * p + p <= y * p
  {
    MulLe(x + 1, y, p);
  }

  lemma {:induction false} ShorterIsSmaller(x: Text, y: Text)
    requires Digits(x) && Digits(y) && |x| < |y| && y[0] != 48
    ensures Decimal(x) < Decimal(y)
  {
    DecimalBound(x);
    DecimalBound(y);
    PowMono(|x|, |y| - 1);
  }

  /** Length first, then bytes, on runs stripped of zeros, is order by value. */
  lemma {:induction false} StrippedOrder(d: Text, e: Text)
    requires Digits(d) && Digits(e)
    ensures var x, y := StripZeros(d), StripZeros(e);
            CompareInt(|x|, |y|).Then(CompareBytes(x, y)) == CompareInt(Decimal(d), Decimal(e))
  {
    StripKeepsDecimal(d);
    StripKeepsDecimal(e);
    StrippedOrderOf(StripZeros(d), StripZeros(e));
  }

  lemma {:induction false} StrippedOrderOf(x: Text, y: Text)
    requires Digits(x) && Digits(y) && (|x| > 0 ==> x[0] != 48) && (|y| > 0 ==> y[0] != 48)
    ensures CompareInt(|x|, |y|).Then(CompareBytes(x, y)) == CompareInt(Decimal(x), Decimal(y))
  {
    if |x| == |y| {
      SameLengthDecimal(x, y);
    } else if |x| < |y| {
      ShorterIsSmaller(x, y);
    } else {
      ShorterIsSmaller(y, x);
    }
  }

  /* ---------------------------------------------------------------- the comparator */

  /** End of the digit run around position `i`. */
  method RunEnd(s: Text, i: nat) returns (end: nat)
    requires i < |s| && IsDigit(s[i])
    ensures i < end <= |s| && end - i == RunLength(s[i..])
  {
    end := i;
    while end < |s| && IsDigit(s[end])
      invariant i <= end <= |s|
      invariant end + RunLength(s[end..]) == i + RunLength(s[i..])
    {
      assert s[end..][1..] == s[end + 1..];
      end := end + 1;
    }
  }

  /** One of the next bytes is not a digit: the bytes decide, or the comparison goes on behind them. */
  lemma {:induction false} BytesCompare(a: Text, b: Text)
    requires |a| > 0 && |b| > 0 && !(IsDigit(a[0]) && IsDigit(b[0]))
    ensures CompareTokens(Tokens(a), Tokens(b)) ==
            CompareInt(a[0], b[0]).Then(CompareTokens(Tokens(a[1..]), Tokens(b[1..])))
  {
  }

  lemma {:induction false} Slices(s: Text, i: nat, end: nat)
    requires i <= end <= |s|
    ensures s[i..][..end - i] == s[i..end] && s[i..][end - i..] == s[end..]
  {
  }

  function CompareDigits(d: Text, e: Text): Ordering {
    CompareInt(|StripZeros(d)|, |StripZeros(e)|).Then(CompareBytes(StripZeros(d), StripZeros(e)))
  }

  /** The token a digit run at `i` makes, and what follows it. */
  lemma {:induction false} RunAt(s: Text, i: nat, i': nat)
    requires i < i' <= |s| && IsDigit(s[i]) && i' - i == RunLength(s[i..])
    ensures Digits(s[i..i']) && Tokens(s[i..]) == [Number(Decimal(s[i..i']))] + Tokens(s[i'..])
  {
    Slices(s, i, i');
  }

  /** Both texts go on with a digit run: the runs decide, or the comparison goes on behind them. */
  lemma {:induction false} RunsCompareAt(a: Text, b: Text, i: nat, j: nat, i': nat, j': nat)
    requires i < i' <= |a| && j < j' <= |b| && IsDigit(a[i]) && IsDigit(b[j])
    requires i' - i == RunLength(a[i..]) && j' - j == RunLength(b[j..])
    ensures CompareTokens(Tokens(a[i..]), Tokens(b[j..])) ==
            CompareDigits(a[i..i'], b[j..j']).Then(CompareTokens(Tokens(a[i'..]), Tokens(b[j'..])))
  {
    RunAt(a, i, i');
    RunAt(b, j, j');
    StrippedOrder(a[i..i'], b[j..j']);
    HeadsCompare(Number(Decimal(a[i..i'])), Tokens(a[i'..]), Number(Decimal(b[j..j'])), Tokens(b[j'..]));
  }

  lemma {:induction false} HeadsCompare(x: Token, xs: seq<Token>, y: Token, ys: seq<Token>)
    ensures CompareTokens([x] + xs, [y] + ys) == CompareToken(x, y).Then(CompareTokens(xs, ys))
  {
  }

  /** The comparison of one pair of digit runs, zeros stripped. */
  method CompareRuns(a: Text, b: Text, i: nat, j: nat) returns (c: Ordering, i': nat, j': nat)
    requires i < |a| && j < |b| && IsDigit(a[i]) && IsDigit(b[j])
    ensures i < i' <= |a| && j < j' <= |b|
    ensures CompareTokens(Tokens(a[i..]), Tokens(b[j..])) == c.Then(CompareTokens(Tokens(a[i'..]), Tokens(b[j'..])))
  {
    i' := RunEnd(a, i);
    j' := RunEnd(b, j);
    RunsCompareAt(a, b, i, j, i', j');
    var da, db := StripZeros(a[i..i']), StripZeros(b[j..j']);
    c := CompareInt(|da|, |db|).Then(CompareBytes(da, db));
  }

  method NaturalCmp(a: Text, b: Text) returns (r: Ordering)
    ensures r == CompareTokens(Tokens(a), Tokens(b))
  {
    var i, j := 0, 0;
    assert a[0..] == a && b[0..] == b;
    while i < |a| && j < |b|
      invariant 0 <= i <= |a| && 0 <= j <= |b|
      invariant CompareTokens(Tokens(a), Tokens(b)) == CompareTokens(Tokens(a[i..]), Tokens(b[j..]))
    {
      if IsDigit(a[i]) && IsDigit(b[j]) {
        var c;
        c, i, j := CompareRuns(a, b, i, j);
        if c != Equal {
          return c;
        }
      } else {
        BytesCompare(a[i..], b[j..]);
        assert a[i..][1..] == a[i + 1..] && b[j..][1..] == b[j + 1..];
        var c := CompareInt(a[i], b[j]);
        if c != Equal {
          return c;
        }
        i, j := i + 1, j + 1;
      }
    }
    return CompareInt(|a| - i, |b| - j);
  }

  /* ---------------------------------------------------------------- a total preorder */

  lemma {:induction false} TokensReflexive(x: seq<Token>)
    ensures CompareTokens(x, x) == Equal
  {
    if |x| > 0 { TokensReflexive(x[1..]); }
  }

  lemma {:induction false} TokensReverse(x: seq<Token>, y: seq<Token>)
    ensures CompareTokens(y, x) == CompareTokens(x, y).Reverse()
  {
    if |x| > 0 && |y| > 0 { TokensReverse(x[1..], y[1..]); }
  }

  lemma {:induction false} TokensTransitive(x: seq<Token>, y: seq<Token>, z: seq<Token>)
    requires Lexed(x) && Lexed(y) && Lexed(z)
    requires CompareTokens(x, y) != Greater && CompareTokens(y, z) != Greater
    ensures CompareTokens(x, z) != Greater
    ensures CompareTokens(x, y) == Less || CompareTokens(y, z) == Less ==> CompareTokens(x, z) == Less
  {
    if |x| > 0 && |y| > 0 && |z| > 0 {
      if CompareToken(x[0], y[0]) == Equal && CompareToken(y[0], z[0]) == Equal {
        TokensTransitive(x[1..], y[1..], z[1..]);
      }
    }
  }

  lemma {:induction false} TokensEqual(x: seq<Token>, y: seq<Token>)
    requires CompareTokens(x, y) == Equal
    ensures x == y
  {
    if |x| > 0 {
      TokensEqual(x[1..], y[1..]);
      assert x == [x[0]] + x[1..] && y == [y[0]] + y[1..];
    }
  }

  /** The comparator's value, as a function. */
  function Natural(a: Text, b: Text): Ordering {
    CompareTokens(Tokens(a), Tokens(b))
  }

  /** `natural_cmp` is a total preorder, and equates exactly the names with the same tokens. */
  lemma {:induction false} NaturalIsTotalPreorder(a: Text, b: Text, c: Text)
    ensures Natural(a, a) == Equal
    ensures Natural(b, a) == Natural(a, b).Reverse()
    ensures Natural(a, b) != Greater && Natural(b, c) != Greater ==> Natural(a, c) != Greater
    ensures Natural(a, b) == Less && Natural(b, c) != Greater ==> Natural(a, c) == Less
    ensures Natural(a, b) != Greater && Natural(b, c) == Less ==> Natural(a, c) == Less
    ensures Natural(a, b) == Equal <==> Tokens(a) == Tokens(b)
  {
    TokensReflexive(Tokens(a));
    TokensReverse(Tokens(a), Tokens(b));
    TokensLexed(a);
    TokensLexed(b);
    TokensLexed(c);
    if Natural(a, b) != Greater && Natural(b, c) != Greater { TokensTransitive(Tokens(a), Tokens(b), Tokens(c)); }
    if Natural(a, b) == Equal { TokensEqual(Tokens(a), Tokens(b)); }
  }
}

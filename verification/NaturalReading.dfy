/** What the name order decides, on the names themselves: numbers, single bytes, prefixes. */
module NaturalReading {
  import opened Wrappers
  import opened NaturalOrder

  /* ---------------------------------------------------------------- tokens of a joined name */

  predicate EndsInDigit(p: Text) {
    |p| > 0 && IsDigit(p[|p| - 1])
  }

  predicate StartsWithDigit(x: Text) {
    |x| > 0 && IsDigit(x[0])
  }

  lemma {:induction false} RunOfJoined(p: Text, x: Text)
    requires !(EndsInDigit(p) && StartsWithDigit(x)) && |p| > 0
    ensures RunLength(p + x) == RunLength(p)
  {
    if IsDigit(p[0]) {
      if |p| > 1 {
        assert (p + x)[1..] == p[1..] + x;
        RunOfJoined(p[1..], x);
      } else {
        assert (p + x)[1..] == x;
      }
    }
  }

  /** A name is read part by part, unless a digit run goes on across the seam. */
  lemma {:induction false} TokensOfJoined(p: Text, x: Text)
    requires !(EndsInDigit(p) && StartsWithDigit(x))
    ensures Tokens(p + x) == Tokens(p) + Tokens(x)
    decreases |p|
  {
    if |p| == 0 {
      assert p + x == x;
    } else if IsDigit(p[0]) {
      var n := RunLength(p);
      RunOfJoined(p, x);
      assert (p + x)[..n] == p[..n] && (p + x)[n..] == p[n..] + x;
      TokensOfJoined(p[n..], x);
    } else {
      assert (p + x)[1..] == p[1..] + x;
      TokensOfJoined(p[1..], x);
    }
  }

  lemma {:induction false} CommonTokens(t: seq<Token>, a: seq<Token>, b: seq<Token>)
    ensures CompareTokens(t + a, t + b) == CompareTokens(a, b)
  {
    if |t| == 0 {
      assert t + a == a && t + b == b;
    } else {
      assert (t + a)[1..] == t[1..] + a && (t + b)[1..] == t[1..] + b;
      CommonTokens(t[1..], a, b);
    }
  }

  lemma {:induction false} CommonPrefix(p: Text, x: Text, y: Text)
    requires !EndsInDigit(p) || (!StartsWithDigit(x) && !StartsWithDigit(y))
    ensures Natural(p + x, p + y) == Natural(x, y)
  {
    TokensOfJoined(p, x);
    TokensOfJoined(p, y);
    CommonTokens(Tokens(p), Tokens(x), Tokens(y));
  }

  /* ---------------------------------------------------------------- what decides */

  /** A name comes before each longer name it starts, unless its last number goes on. */
  lemma {:induction false} PrefixComesFirst(p: Text, x: Text)
    requires |x| > 0 && !(EndsInDigit(p) && StartsWithDigit(x))
    ensures Natural(p, p + x) == Less && Natural(p + x, p) == Greater
  {
    CommonPrefix(p, [], x);
    assert p + [] == p;
    NaturalIsTotalPreorder(p, p + x, p);
  }

  lemma {:induction false} RunIsWhole(d: Text, x: Text)
    requires Digits(d) && |d| > 0 && !StartsWithDigit(x)
    ensures Tokens(d + x) == [Number(Decimal(d))] + Tokens(x)
  {
    AllOneRun(d);
    assert d + [] == d && d[..|d|] == d && d[|d|..] == [];
    TokensOfJoined(d, x);
  }

  lemma {:induction false} AllOneRun(d: Text)
    requires Digits(d)
    ensures RunLength(d) == |d|
  {
    if |d| > 0 { AllOneRun(d[1..]); }
  }

  /** Where two names first have a number each, the smaller number comes first; equal numbers leave it to the rest. */
  lemma {:induction false} NumbersDecide(p: Text, d: Text, e: Text, x: Text, y: Text)
    requires !EndsInDigit(p) && Digits(d) && Digits(e) && |d| > 0 && |e| > 0
    requires !StartsWithDigit(x) && !StartsWithDigit(y)
    ensures Decimal(d) < Decimal(e) ==> Natural(p + (d + x), p + (e + y)) == Less
    ensures Decimal(d) > Decimal(e) ==> Natural(p + (d + x), p + (e + y)) == Greater
    ensures Decimal(d) == Decimal(e) ==> Natural(p + (d + x), p + (e + y)) == Natural(x, y)
  {
    CommonPrefix(p, d + x, e + y);
    RunIsWhole(d, x);
    RunIsWhole(e, y);
    HeadsCompare(Number(Decimal(d)), Tokens(x), Number(Decimal(e)), Tokens(y));
  }

  /** Where two names first differ in a byte that is not in a number of both, the smaller byte comes first. */
  lemma {:induction false} BytesDecide(p: Text, a: Byte, x: Text, b: Byte, y: Text)
    requires a < b && !(IsDigit(a) && IsDigit(b)) && (EndsInDigit(p) ==> !IsDigit(a) && !IsDigit(b))
    ensures Natural(p + ([a] + x), p + ([b] + y)) == Less
    ensures Natural(p + ([b] + y), p + ([a] + x)) == Greater
  {
    CommonPrefix(p, [a] + x, [b] + y);
    BytesCompare([a] + x, [b] + y);
    NaturalIsTotalPreorder(p + ([a] + x), p + ([b] + y), p);
  }

  /** The value of a decimal number: the digits before the last count ten times. */
  lemma {:induction false} DecimalPush(d: Text, b: Byte)
    requires Digits(d) && IsDigit(b)
    ensures Digits(d + [b]) && Decimal(d + [b]) == 10 * Decimal(d) + (b - 48)
  {
    if |d| == 0 {
      assert d + [b] == [b] && [b][1..] == [];
      assert Pow10(0) == 1;
    } else {
      assert (d + [b])[1..] == d[1..] + [b];
      DecimalPush(d[1..], b);
      TenTimes(d[0] - 48, Pow10(|d| - 1));
    }
  }

  lemma {:induction false} TenTimes(x: int, p: int)
    ensures x * (10 * p) == 10 * (x * p)
  {
  }

  /* ---------------------------------------------------------------- byte strings */

  lemma {:induction false} BytesOrder(p: Text, a: Byte, x: Text, b: Byte, y: Text)
    ensures CompareBytes(p, p + ([a] + x)) == Less && CompareBytes(p + ([a] + x), p) == Greater
    ensures a < b ==> CompareBytes(p + ([a] + x), p + ([b] + y)) == Less
    ensures a > b ==> CompareBytes(p + ([a] + x), p + ([b] + y)) == Greater
  {
    if |p| == 0 {
      assert p + ([a] + x) == [a] + x && p + ([b] + y) == [b] + y;
    } else {
      assert (p + ([a] + x))[1..] == p[1..] + ([a] + x) && (p + ([b] + y))[1..] == p[1..] + ([b] + y);
      BytesOrder(p[1..], a, x, b, y);
    }
  }
}

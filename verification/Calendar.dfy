/** The timestamp reader of src/cc_usage.rs: integer calendar arithmetic from a civil date to unix seconds. */
module Calendar {
  import opened Wrappers
  import opened NaturalOrder

  datatype Date = Date(y: int, m: int, d: int)

  const EPOCH := Date(1970, 1, 1)

  /* ---------------------------------------------------------------- the formula */

  /** Days up to March 1 of year `y`, counted from March 1 of year 0. */
  function MarchYear(y: int): int {
    var era := y / 400;
    var yoe := y - era * 400;
    era * 146_097 + yoe * 365 + yoe / 4 - yoe / 100
  }

  /** Day of the year that starts on March 1, from 0. */
  function DayOfYear(m: int, d: int): int {
    (153 * ((m + 9) % 12) + 2) / 5 + d - 1
  }

  /** The source's formula; `/` and `%` only ever see a non-negative left operand or, for the era, round down. */
  function DayNumber(date: Date): int {
    var yAdj := if date.m <= 2 then date.y - 1 else date.y;
    MarchYear(yAdj) + DayOfYear(date.m, date.d) - 719_468
  }

  /* ---------------------------------------------------------------- the calendar */

  predicate Leap(y: int) {
    y % 4 == 0 && (y % 100 != 0 || y % 400 == 0)
  }

  function DaysIn(y: int, m: int): int {
    if m == 2 then (if Leap(y) then 29 else 28)
    else if m == 4 || m == 6 || m == 9 || m == 11 then 30
    else 31
  }

  predicate Valid(date: Date) {
    1 <= date.m <= 12 && 1 <= date.d <= DaysIn(date.y, date.m)
  }

  /** The next day of the Gregorian calendar. */
  function Next(date: Date): Date {
    if date.d < DaysIn(date.y, date.m) then date.(d := date.d + 1)
    else if date.m < 12 then Date(date.y, date.m + 1, 1)
    else Date(date.y + 1, 1, 1)
  }

  function Forward(date: Date, n: nat): Date {
    if n == 0 then date else Next(Forward(date, n - 1))
  }

  predicate Earlier(a: Date, b: Date) {
    a.y < b.y || (a.y == b.y && (a.m < b.m || (a.m == b.m && a.d < b.d)))
  }

  /* ---------------------------------------------------------------- the formula counts days */

  lemma {:induction false} ModShift(era: int, t: int)
    ensures (400 * era + t) % 4 == t % 4 && (400 * era + t) % 100 == t % 100 && (400 * era + t) % 400 == t % 400
  {
    assert (400 * era + t) / 4 == 100 * era + t / 4;
    assert (400 * era + t) / 100 == 4 * era + t / 100;
    assert (400 * era + t) / 400 == era + t / 400;
  }

  lemma {:induction false} EraSplit(era: int, t: int)
    requires 0 <= t < 400
    ensures (400 * era + t) / 400 == era
  {
  }

  lemma {:induction false} YearOfEraStep(yoe: int)
    requires 0 <= yoe < 399
    ensures (yoe + 1) / 4 - yoe / 4 == (if (yoe + 1) % 4 == 0 then 1 else 0)
    ensures (yoe + 1) / 100 - yoe / 100 == (if (yoe + 1) % 100 == 0 then 1 else 0)
    ensures (yoe + 1) % 400 != 0
    ensures (yoe + 1) % 100 == 0 ==> (yoe + 1) % 4 == 0
  {
  }

  /** From one March to the next there are 365 days, 366 when the second one's February was long. */
  lemma {:induction false} MarchYearStep(y: int)
    ensures MarchYear(y + 1) - MarchYear(y) == if Leap(y + 1) then 366 else 365
  {
    var era := y / 400;
    var yoe := y - 400 * era;
    ModShift(era, yoe + 1);
    if yoe == 399 {
      assert y + 1 == 400 * (era + 1) + 0;
      EraSplit(era + 1, 0);
    } else {
      EraSplit(era, yoe + 1);
      YearOfEraStep(yoe);
    }
  }

  lemma {:induction false} MonthLengths(y: int, m: int)
    requires 1 <= m <= 12 && m != 2
    ensures DayOfYear(if m < 12 then m + 1 else 1, 1) == DayOfYear(m, DaysIn(y, m)) + 1
  {
    assert m == 1 || m == 3 || m == 4 || m == 5 || m == 6
           || m == 7 || m == 8 || m == 9 || m == 10 || m == 11 || m == 12;
  }

  /** From each valid date to the next the day number rises by exactly one. */
  lemma {:induction false} NextDayIsOneMore(date: Date)
    requires Valid(date)
    ensures Valid(Next(date)) && DayNumber(Next(date)) == DayNumber(date) + 1
  {
    if date.d == DaysIn(date.y, date.m) {
      if date.m == 2 {
        MarchYearStep(date.y - 1);
        assert DayOfYear(3, 1) == 0 && DayOfYear(2, date.d) == 336 + date.d;
      } else {
        MonthLengths(date.y, date.m);
      }
    }
  }

  lemma {:induction false} ForwardCounts(date: Date, n: nat)
    requires Valid(date)
    ensures Valid(Forward(date, n)) && DayNumber(Forward(date, n)) == DayNumber(date) + n
  {
    if n > 0 {
      ForwardCounts(date, n - 1);
      NextDayIsOneMore(Forward(date, n - 1));
    }
  }

  lemma {:induction false} ForwardFrom(date: Date, n: nat)
    ensures Forward(Next(date), n) == Forward(date, n + 1)
  {
    if n > 0 { ForwardFrom(date, n - 1); }
  }

  /** A later date is reached by counting days. */
  lemma {:induction false} DaysBetween(a: Date, b: Date) returns (n: nat)
    requires Valid(a) && Valid(b) && (a == b || Earlier(a, b))
    ensures b == Forward(a, n) && (n > 0 <==> Earlier(a, b))
    decreases ((b.y - a.y) * 12 + b.m - a.m) * 31 + b.d - a.d
  {
    if a == b {
      n := 0;
    } else {
      NextDayIsOneMore(a);
      var k := DaysBetween(Next(a), b);
      ForwardFrom(a, k);
      n := k + 1;
    }
  }

  /** The formula is the number of days from 1970-01-01, before and after it, and strictly monotone. */
  lemma {:induction false} DayNumberCountsDays(a: Date, b: Date) returns (n: nat)
    requires Valid(a) && Valid(b) && Earlier(a, b)
    ensures n > 0 && b == Forward(a, n) && DayNumber(b) == DayNumber(a) + n
    ensures DayNumber(EPOCH) == 0
    ensures a == EPOCH ==> DayNumber(b) == n
    ensures b == EPOCH ==> DayNumber(a) + n == 0
  {
    n := DaysBetween(a, b);
    ForwardCounts(a, n);
    EpochIsZero();
  }

  lemma {:induction false} EpochIsZero()
    ensures DayNumber(EPOCH) == 0
  {
    assert MarchYear(1969) == 719_162;
    assert DayOfYear(1, 1) == 306;
  }

  /** Different dates have different numbers, in the same order. */
  lemma {:induction false} DayNumberOrders(a: Date, b: Date)
    requires Valid(a) && Valid(b)
    ensures DayNumber(a) < DayNumber(b) <==> Earlier(a, b)
    ensures DayNumber(a) == DayNumber(b) <==> a == b
  {
    if Earlier(a, b) {
      var n := DayNumberCountsDays(a, b);
    } else if Earlier(b, a) {
      var n := DayNumberCountsDays(b, a);
    }
  }

  /* ---------------------------------------------------------------- reading a timestamp */

  /** `str::parse::<i64>` on a field of at most four bytes: an optional sign, then digits. */
  function ParseInt(s: Text): Option<int> {
    var digits := if s != [] && (s[0] == 43 || s[0] == 45) then s[1..] else s;
    if digits == [] || !Digits(digits) then None
    else Some(if s[0] == 45 then 0 - Decimal(digits) else Decimal(digits))
  }

  /** `parse_iso_utc`: six numeric fields at fixed places; what stands between and after them is not looked at. */
  function ParseIsoUtc(b: Text): Option<int> {
    if |b| < 19 then None
    else
      var y, mo, d := ParseInt(b[0..4]), ParseInt(b[5..7]), ParseInt(b[8..10]);
      var h, mi, sec := ParseInt(b[11..13]), ParseInt(b[14..16]), ParseInt(b[17..19]);
      if y.None? || mo.None? || d.None? || h.None? || mi.None? || sec.None? then None
      else Some(DayNumber(Date(y.value, mo.value, d.value)) * 86_400 + h.value * 3_600 + mi.value * 60 + sec.value)
  }

  /** `s` is an optional sign and at least one digit. */
  predicate IsInt(s: Text) {
    var digits := if |s| > 0 && (s[0] == 43 || s[0] == 45) then s[1..] else s;
    |digits| > 0 && Digits(digits)
  }

  /** A field is read exactly if it is a signed number; the minus sign counts, the plus sign does not. */
  lemma {:induction false} ReadsSigned(d: Text)
    requires Digits(d) && |d| > 0
    ensures ParseInt(d) == Some(Decimal(d)) && ParseInt([43] + d) == Some(Decimal(d))
    ensures ParseInt([45] + d) == Some(0 - Decimal(d))
  {
    assert ([43] + d)[1..] == d && ([45] + d)[1..] == d;
  }

  lemma {:induction false} ReadsIffInt(s: Text)
    ensures ParseInt(s).Some? <==> IsInt(s)
  {
  }

  /** A timestamp is read exactly if it is long enough and its six fields are numbers, whatever stands between them. */
  lemma {:induction false} ReadsIffFields(b: Text)
    ensures ParseIsoUtc(b).Some? <==>
            |b| >= 19 && IsInt(b[0..4]) && IsInt(b[5..7]) && IsInt(b[8..10])
            && IsInt(b[11..13]) && IsInt(b[14..16]) && IsInt(b[17..19])
  {
    if |b| >= 19 {
      ReadsIffInt(b[0..4]);
      ReadsIffInt(b[5..7]);
      ReadsIffInt(b[8..10]);
      ReadsIffInt(b[11..13]);
      ReadsIffInt(b[14..16]);
      ReadsIffInt(b[17..19]);
    }
  }

  function Two(n: nat): Text
    requires n < 100
  {
    [48 + n / 10, 48 + n % 10]
  }

  function Four(n: nat): Text
    requires n < 10_000
  {
    Two(n / 100) + Two(n % 100)
  }

  lemma {:induction false} ReadsTwo(n: nat)
    requires n < 100
    ensures ParseInt(Two(n)) == Some(n)
  {
    var s := Two(n);
    assert s[1..] == [48 + n % 10] && s[1..][1..] == [];
    assert Pow10(1) == 10 && Pow10(0) == 1;
    assert Decimal(s) == (n / 10) * 10 + Decimal(s[1..]);
    assert Decimal(s[1..]) == n % 10;
  }

  lemma {:induction false} ReadsFour(n: nat)
    requires n < 10_000
    ensures ParseInt(Four(n)) == Some(n)
  {
    var a, b, c, d := n / 100 / 10, n / 100 % 10, n % 100 / 10, n % 100 % 10;
    var s := Four(n);
    assert s == [48 + a, 48 + b, 48 + c, 48 + d];
    assert s[1..] == [48 + b, 48 + c, 48 + d] && s[1..][1..] == [48 + c, 48 + d];
    assert s[1..][1..][1..] == [48 + d] && s[1..][1..][1..][1..] == [];
    assert Pow10(0) == 1 && Pow10(1) == 10 && Pow10(2) == 100 && Pow10(3) == 1000;
    assert Decimal(s) == a * 1000 + Decimal(s[1..]);
    assert Decimal(s[1..]) == b * 100 + Decimal(s[1..][1..]);
    assert Decimal(s[1..][1..]) == c * 10 + Decimal(s[1..][1..][1..]);
    assert Decimal(s[1..][1..][1..]) == d;
  }

  /** A timestamp as the feed writes it: separators `x`, anything (fraction, zone) behind. */
  function Stamp(date: Date, h: nat, mi: nat, sec: nat, x: Byte, rest: Text): Text
    requires Valid(date) && 0 <= date.y < 10_000 && h < 24 && mi < 60 && sec < 60
  {
    Four(date.y) + [x] + Two(date.m) + [x] + Two(date.d) + [x] + Two(h) + [x] + Two(mi) + [x] + Two(sec) + rest
  }

  lemma {:induction false} StampParts(date: Date, h: nat, mi: nat, sec: nat, x: Byte, rest: Text)
    requires Valid(date) && 0 <= date.y < 10_000 && h < 24 && mi < 60 && sec < 60
    ensures
      var s := Stamp(date, h, mi, sec, x, rest);
      && |s| >= 19 && s[0..4] == Four(date.y) && s[5..7] == Two(date.m) && s[8..10] == Two(date.d)
      && s[11..13] == Two(h) && s[14..16] == Two(mi) && s[17..19] == Two(sec)
  {
  }

  /** Reading a written timestamp gives the seconds since 1970-01-01T00:00:00. */
  lemma {:induction false} ReadsStamp(date: Date, h: nat, mi: nat, sec: nat, x: Byte, rest: Text)
    requires Valid(date) && 0 <= date.y < 10_000 && h < 24 && mi < 60 && sec < 60
    ensures ParseIsoUtc(Stamp(date, h, mi, sec, x, rest)) ==
            Some(DayNumber(date) * 86_400 + h * 3_600 + mi * 60 + sec)
  {
    StampParts(date, h, mi, sec, x, rest);
    ReadsFour(date.y);
    ReadsTwo(date.m);
    ReadsTwo(date.d);
    ReadsTwo(h);
    ReadsTwo(mi);
    ReadsTwo(sec);
  }
}

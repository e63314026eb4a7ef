/** libsol/rfc3339.c: day numbers to Gregorian dates, and fixed-width timestamps.

    The reference is the calendar itself: day 0 is 31 December of year 0, and each
    later day is the calendar successor of the one before it. */
module Calendar {
  import opened Bytes
  import opened Decimal

  datatype Date = Date(year: int, month: int, day: int)

  /** Number of days from 0000-12-31 to 10000-01-01. */
  const DAY_LIMIT := 3652060
  const SECONDS_PER_DAY := 86400
  /** Seconds from 0000-12-31 to 1970-01-01. */
  const EPOCH := 62135683200

  predicate IsLeap(y: int) { y % 4 == 0 && (y % 100 != 0 || y % 400 == 0) }

  /** The day-of-month rule of section 5.7 of RFC 3339. */
  function DaysInMonth(y: int, m: int): int
    requires 1 <= m <= 12
  {
    if m == 2 then (if IsLeap(y) then 29 else 28)
    else if m == 4 || m == 6 || m == 9 || m == 11 then 30
    else 31
  }

  predicate ValidDate(d: Date) {
    1 <= d.month <= 12 && 1 <= d.day <= DaysInMonth(d.year, d.month)
  }

  function NextDay(d: Date): (r: Date)
    requires ValidDate(d)
    ensures ValidDate(r)
  {
    if d.day < DaysInMonth(d.year, d.month) then d.(day := d.day + 1)
    else if d.month < 12 then Date(d.year, d.month + 1, 1)
    else Date(d.year + 1, 1, 1)
  }

  function CalendarDate(n: nat): (d: Date)
    ensures ValidDate(d)
  {
    if n == 0 then Date(0, 12, 31) else NextDay(CalendarDate(n - 1))
  }

  // ---------- closed form of the day number ----------

  /** Days in the year before the first day of month m. */
  function DaysBeforeMonth(y: int, m: int): int
    requires 1 <= m <= 12
  {
    [0, 31, 59, 90, 120, 151, 181, 212, 243, 273, 304, 334][m - 1]
      + (if m > 2 && IsLeap(y) then 1 else 0)
  }

  /** Days from 0000-12-31 to the last day of year y - 1. */
  function DaysBeforeYear(y: int): int {
    365 * (y - 1) + (y - 1) / 4 - (y - 1) / 100 + (y - 1) / 400
  }

  function DayNumber(d: Date): int
    requires 1 <= d.month <= 12
  {
    DaysBeforeYear(d.year) + DaysBeforeMonth(d.year, d.month) + d.day
  }

  lemma YearLength(y: int)
    ensures DaysBeforeYear(y + 1) == DaysBeforeYear(y) + (if IsLeap(y) then 366 else 365)
  {
    StepDiv(y, 4);
    StepDiv(y, 100);
    StepDiv(y, 400);
  }

  lemma StepDiv(y: int, k: int)
    requires k > 1
    ensures y / k == (y - 1) / k + (if y % k == 0 then 1 else 0)
  {
    var q, r := (y - 1) / k, (y - 1) % k;
    assert y == k * q + (r + 1);
    if r + 1 == k {
      DivUnique(y, k, q + 1, 0);
    } else {
      DivUnique(y, k, q, r + 1);
    }
  }

  lemma DivUnique(x: int, k: int, q: int, r: int)
    requires k > 0 && 0 <= r < k && x == k * q + r
    ensures x / k == q && x % k == r
  {
    MulSign(k, x / k - q);
    assert k * (x / k - q) == r - x % k;
  }

  lemma MulSign(k: int, d: int)
    requires k > 0
    ensures d > 0 ==> k * d >= k
    ensures d < 0 ==> k * d <= -k
  {
  }

  lemma NextDayNumber(d: Date)
    requires ValidDate(d)
    ensures DayNumber(NextDay(d)) == DayNumber(d) + 1
  {
    YearLength(d.year);
  }

  lemma {:induction false} CalendarDateNumber(n: nat)
    ensures DayNumber(CalendarDate(n)) == n
  {
    if n == 0 {
    } else {
      CalendarDateNumber(n - 1);
      NextDayNumber(CalendarDate(n - 1));
    }
  }

  lemma {:induction false} YearsApart(a: int, b: int)
    requires a < b
    ensures DaysBeforeYear(a) + 365 <= DaysBeforeYear(b)
    ensures IsLeap(a) ==> DaysBeforeYear(a) + 366 <= DaysBeforeYear(b)
    decreases b - a
  {
    YearLength(a);
    if a + 1 < b {
      YearsApart(a + 1, b);
    }
  }

  predicate DateLess(a: Date, b: Date) {
    a.year < b.year
    || (a.year == b.year && (a.month < b.month || (a.month == b.month && a.day < b.day)))
  }

  /** Calendar order is day-number order. */
  lemma DateOrder(a: Date, b: Date)
    requires ValidDate(a) && ValidDate(b)
    ensures DateLess(a, b) <==> DayNumber(a) < DayNumber(b)
    ensures DayNumber(a) == DayNumber(b) ==> a == b
  {
    if a.year < b.year {
      YearsApart(a.year, b.year);
    } else if b.year < a.year {
      YearsApart(b.year, a.year);
    }
  }

  // ---------- rdn_to_ymd ----------

  const DAY_OFFSET: seq<u16> := [0, 306, 337, 0, 31, 61, 92, 122, 153, 184, 214, 245, 275]

  /** The intermediate results of Baum's algorithm before the January/February
      correction: y counts years that start on 1 March, d is the day in such a
      year and m its month, 3 to 14. */
  datatype Baum = Baum(Z: u32, H: u32, A: u32, B: u32, y: u32, d: u32, m: u32)

  ghost predicate IsBaum(rdn: u32, b: Baum) {
    && b.Z == Wrap32(rdn + 306)
    && b.H == Wrap32(100 * b.Z - 25)
    && b.A == b.H / 3652425
    && b.B == Wrap32(b.A - b.A / 4)
    && b.y == Wrap32(100 * b.B + b.H) / 36525
    && b.d == Wrap32(b.B + b.Z - Wrap32(1461 * b.y) / 4)
    && b.m == Wrap32(535 * b.d + 48950) / 16384
  }

  /** The century number A is exact: y lies in the A-th group of a hundred years. */
  lemma CenturyIsExact(Z: int, A: int, q: int, r: int, B: int, y: int)
    requires Z >= 1
    requires 3652425 * A <= 100 * Z - 25 < 3652425 * (A + 1)
    requires A == 4 * q + r && 0 <= r < 4 && B == 3 * q + r
    requires 36525 * y <= 100 * B + 100 * Z - 25 < 36525 * (y + 1)
    ensures 100 * A <= y < 100 * A + 100
  {
  }

  lemma MarchDay(Z: int, A: int, B: int, y: int, d: int)
    requires 3652425 * A <= 100 * Z - 25 < 3652425 * (A + 1)
    requires B == A - A / 4
    requires 36525 * y <= 100 * B + 100 * Z - 25 < 36525 * (y + 1)
    requires d == B + Z - 365 * y - y / 4
    ensures 1 <= d <= 366
    ensures d == 366 ==> y % 4 == 3
    ensures d == 366 && y == 100 * A + 99 ==> A % 4 == 3
  {
    var s := y % 4;
    assert 4 * d == 4 * B + 4 * Z - 1461 * y + s;
    assert 1461 * y <= 4 * B + 4 * Z - 1 < 1461 * y + 1461;
  }

  /** Without wrap-around y is the March-based year of day Z and d its day in it. */
  lemma MarchYear(Z: int, A: int, B: int, y: int, d: int)
    requires Z >= 1 && A >= 0
    requires A == (100 * Z - 25) / 3652425 && B == A - A / 4
    requires y == (100 * B + 100 * Z - 25) / 36525
    requires d == B + Z - 365 * y - y / 4
    ensures Z == DaysBeforeYear(y + 1) + d
    ensures 1 <= d <= 365 || (d == 366 && IsLeap(y + 1))
  {
    CenturyIsExact(Z, A, A / 4, A % 4, B, y);
    MarchDay(Z, A, B, y, d);
    var c := y - 100 * A;
    DivUnique(y, 100, A, c);
    DivUnique(y, 400, A / 4, 100 * (A % 4) + c);
    if d == 366 {
      LeapAfter(y, A, c);
    }
  }

  lemma LeapAfter(y: int, A: int, c: int)
    requires y == 100 * A + c && 0 <= c < 100
    requires y % 4 == 3 && (c == 99 ==> A % 4 == 3)
    ensures IsLeap(y + 1)
  {
    assert (y + 1) % 4 == 0;
    if c == 99 {
      DivUnique(y + 1, 400, A / 4 + 1, 0);
    } else {
      DivUnique(y + 1, 100, A, c + 1);
    }
  }

  /** March-based month and day of the month, as the final correction computes them. */
  function FromMarch(y: int, d: int, m: int): (r: Date)
    requires 3 <= m <= 14
  {
    if m > 12 then Date(y + 1, m - 12, d - DAY_OFFSET[m - 12]) else Date(y, m, d - DAY_OFFSET[m])
  }

  lemma MarchMonth(y: int, d: int, m: int)
    requires 1 <= d <= 365 || (d == 366 && IsLeap(y + 1))
    requires m == (535 * d + 48950) / 16384
    ensures 3 <= m <= 14
    ensures ValidDate(FromMarch(y, d, m))
    ensures d <= 31 + DAY_OFFSET[if m > 12 then m - 12 else m]
    ensures DayNumber(FromMarch(y, d, m)) == DaysBeforeYear(y + 1) + d - 306
  {
    YearLength(y);
  }

  lemma QuarterYears(y: int)
    ensures 1461 * y / 4 == 365 * y + y / 4
  {
    assert 1461 * y == 4 * (365 * y) + y;
  }

  lemma NoWrap(x: int)
    requires 0 <= x < 0x1_0000_0000
    ensures Wrap32(x) == x
  {
  }

  lemma BaumYear(rdn: u32, b: Baum)
    requires rdn < DAY_LIMIT && IsBaum(rdn, b)
    ensures b.Z == rdn + 306 && b.A == (100 * b.Z - 25) / 3652425 && b.B == b.A - b.A / 4
    ensures b.y == (100 * b.B + 100 * b.Z - 25) / 36525
    ensures 0 <= b.y <= 10001
  {
    NoWrap(rdn + 306);
    NoWrap(100 * b.Z - 25);
    assert 0 <= b.A <= 100;
    NoWrap(b.A - b.A / 4);
    NoWrap(100 * b.B + b.H);
  }

  /** In range nothing wraps, so the locals are the unbounded-integer ones. */
  lemma BaumUnwrapped(rdn: u32, b: Baum)
    requires rdn < DAY_LIMIT && IsBaum(rdn, b)
    ensures b.Z == rdn + 306 && b.A == (100 * b.Z - 25) / 3652425 && b.B == b.A - b.A / 4
    ensures b.y == (100 * b.B + 100 * b.Z - 25) / 36525
    ensures b.d == b.B + b.Z - 365 * b.y - b.y / 4
    ensures 1 <= b.d <= 366 && b.m == (535 * b.d + 48950) / 16384
  {
    BaumYear(rdn, b);
    QuarterYears(b.y);
    var d := b.B + b.Z - 365 * b.y - b.y / 4;
    MarchDay(b.Z, b.A, b.B, b.y, d);
    NoWrap(1461 * b.y);
    NoWrap(d);
    NoWrap(535 * d + 48950);
  }

  lemma BaumInRange(rdn: u32, b: Baum)
    requires rdn < DAY_LIMIT && IsBaum(rdn, b)
    ensures 3 <= b.m <= 14
    ensures b.d <= 31 + DAY_OFFSET[if b.m > 12 then b.m - 12 else b.m]
    ensures FromMarch(b.y, b.d, b.m) == CalendarDate(rdn)
    ensures 0 <= CalendarDate(rdn).year <= 9999
  {
    BaumUnwrapped(rdn, b);
    MarchYear(b.Z, b.A, b.B, b.y, b.d);
    MarchMonth(b.y, b.d, b.m);
    CalendarDateNumber(rdn);
    DateOrder(FromMarch(b.y, b.d, b.m), CalendarDate(rdn));
    YearBound(CalendarDate(rdn), rdn);
  }

  lemma YearBound(c: Date, n: int)
    requires ValidDate(c) && DayNumber(c) == n && 0 <= n < DAY_LIMIT
    ensures 0 <= c.year <= 9999
  {
    assert DaysBeforeYear(10000) == 3652059 && DaysBeforeYear(0) == -366;
    if c.year > 10000 {
      YearsApart(10000, c.year);
    } else if c.year < 0 {
      YearsApart(c.year, 0);
      YearLength(c.year);
      if c.year < -1 { YearsApart(c.year + 1, 0); }
    }
  }

  // ---------- which 32-bit day numbers are accepted ----------

  /** The correction and the final check of the algorithm. */
  ghost predicate Accepts(b: Baum) {
    var m := if b.m > 12 then b.m - 12 else b.m;
    var y := if b.m > 12 then b.y + 1 else b.y;
    y <= 9999 && m <= 12 && b.d <= 31 + DAY_OFFSET[m]
  }

  lemma AcceptsDay(b: Baum)
    requires b.m == Wrap32(535 * b.d + 48950) / 16384
    requires b.y <= 9998 && 1 <= b.d <= 366
    ensures Accepts(b)
  {
    NoWrap(535 * b.d + 48950);
  }

  lemma CenturySum(H: u32, A: int, B: int)
    requires A == H / 3652425 && B == Wrap32(A - A / 4)
    ensures 0 <= A <= 1175 && B == A - A / 4 && B <= 882
  {
    NoWrap(A - A / 4);
  }

  /** The wrapped sum 100 * B + H: either nothing wraps, or y is 0, 1 or 2. */
  lemma BaumSum(rdn: u32, b: Baum)
    requires IsBaum(rdn, b)
    ensures b.A <= 1175 && b.B == b.A - b.A / 4 && b.B <= 882
    ensures 100 * b.B + b.H < 0x1_0000_0000 ==> b.y == (100 * b.B + b.H) / 36525
    ensures 100 * b.B + b.H >= 0x1_0000_0000 ==> b.y == (100 * b.B + b.H - 0x1_0000_0000) / 36525 && b.y <= 2
    ensures Wrap32(1461 * b.y) == 1461 * b.y && b.y < 117600
  {
    CenturySum(b.H, b.A, b.B);
    var W := 100 * b.B + b.H;
    NoWrap(if W < 0x1_0000_0000 then W else W - 0x1_0000_0000);
    assert Wrap32(W) == if W < 0x1_0000_0000 then W else W - 0x1_0000_0000;
    NoWrap(1461 * b.y);
  }

  lemma EarlyRejects(rdn: u32, b: Baum)
    requires DAY_LIMIT <= rdn <= 42949672 - 306 && IsBaum(rdn, b)
    ensures !Accepts(b)
  {
    BaumSum(rdn, b);
    NoWrap(rdn + 306);
    NoWrap(100 * b.Z - 25);
    assert b.A >= 99 && b.B >= 75;
    if 100 * b.B + b.H >= 0x1_0000_0000 {
      LateDay(b);
      HugeDayRejects(b);
    } else if b.y == 9999 {
      YearTenThousand(b);
    } else {
      LateYearRejects(b);
    }
  }

  lemma YearTenThousand(b: Baum)
    requires b.y == 9999 && b.B >= 75 && b.Z >= 3652366
    requires 100 * b.B + 100 * b.Z - 25 < 36525 * 10000
    requires b.d == Wrap32(b.B + b.Z - Wrap32(1461 * b.y) / 4)
    requires b.m == Wrap32(535 * b.d + 48950) / 16384
    ensures !Accepts(b)
  {
    NoWrap(b.B + b.Z - 3652134);
    NoWrap(535 * b.d + 48950);
  }

  lemma LateYearRejects(b: Baum)
    requires b.y > 9999
    ensures !Accepts(b)
  {
  }

  /** A day of the year beyond every month end is rejected whatever the month. */
  lemma HugeDayRejects(b: Baum)
    requires b.d > 368
    ensures !Accepts(b)
  {
  }

  lemma LateRejects(rdn: u32, b: Baum)
    requires 42949672 - 306 < rdn < 0x1_0000_0000 - 1187 && IsBaum(rdn, b)
    ensures !Accepts(b)
  {
    BaumSum(rdn, b);
    NoWrap(rdn + 306);
    if b.y <= 9999 {
      LateDay(b);
      HugeDayRejects(b);
    } else {
      LateYearRejects(b);
    }
  }

  lemma LateDay(b: Baum)
    requires 42000000 < b.Z < 0x1_0000_0000 - 881 && b.y <= 9999 && b.B <= 882
    requires b.H == Wrap32(100 * b.Z - 25) && b.B <= b.A == b.H / 3652425
    requires 100 * b.B + b.H < 0x1_0000_0000 ==> b.y == (100 * b.B + b.H) / 36525
    requires 100 * b.B + b.H >= 0x1_0000_0000 ==> b.y <= 2
    requires b.d == Wrap32(b.B + b.Z - Wrap32(1461 * b.y) / 4)
    ensures b.d > 368
  {
    NoWrap(1461 * b.y);
    var q := 1461 * b.y / 4;
    assert 0 <= q <= 3652135;
    assert b.Z == 0x1_0000_0000 - 882 ==> b.H == 0x1_0000_0000 - 88225;
    if 100 * b.B + b.H < 0x1_0000_0000 {
      assert b.H < 36525 * 10000;
      assert b.B <= 100;
    }
    NoWrap(b.B + b.Z - q);
  }

  lemma TailAccepts(rdn: u32, b: Baum)
    requires rdn >= 0x1_0000_0000 - 1187 && IsBaum(rdn, b)
    ensures Accepts(b)
  {
    if rdn >= 0x1_0000_0000 - 305 {
      TailStart(rdn, b);
    } else {
      TailDay(rdn, b, 0x1_0000_0000 - (rdn + 306));
    }
    AcceptsDay(b);
  }

  lemma TailStart(rdn: u32, b: Baum)
    requires rdn >= 0x1_0000_0000 - 305 && IsBaum(rdn, b)
    ensures b.y == 0 && 1 <= b.d <= 305
  {
    var Z := rdn + 306 - 0x1_0000_0000;
    WrapOnce(rdn + 306);
    NoWrap(100 * Z - 25);
    SmallCentury(Z);
    NoWrap(Z);
  }

  lemma WrapOnce(x: int)
    requires 0x1_0000_0000 <= x < 0x2_0000_0000
    ensures Wrap32(x) == x - 0x1_0000_0000
  {
  }

  lemma SmallCentury(Z: int)
    requires 1 <= Z <= 305
    ensures (100 * Z - 25) / 3652425 == 0 && (100 * Z - 25) / 36525 == 0
  {
  }

  lemma TailDay(rdn: u32, b: Baum, j: int)
    requires IsBaum(rdn, b) && 0 <= j <= 881 && rdn + 306 == 0x1_0000_0000 - j
    ensures b.y <= 2 && 1 <= b.d <= 365
  {
    TailLocals(rdn, b, j);
    var q := if b.y == 0 then 0 else if b.y == 1 then 365 else 730;
    NoWrap(1461 * b.y);
    assert 1461 * b.y / 4 == q;
    assert 1 <= 882 - j - q <= 365;
    NoWrap(882 - j - q);
  }

  lemma TailLocals(rdn: u32, b: Baum, j: int)
    requires IsBaum(rdn, b) && 0 <= j <= 881 && rdn + 306 == 0x1_0000_0000 - j
    ensures b.Z == (if j == 0 then 0 else 0x1_0000_0000 - j)
    ensures b.B == 882 && b.y == (88175 - 100 * j) / 36525
  {
    BaumSum(rdn, b);
    if j == 0 { WrapOnce(rdn + 306); } else { NoWrap(rdn + 306); }
    TailWrap(b.Z, j);
    TailCentury(j);
  }

  lemma TailCentury(j: int)
    requires 0 <= j <= 881
    ensures (0x1_0000_0000 - 100 * j - 25) / 3652425 == 1175
    ensures 0x1_0000_0000 <= 100 * 882 + (0x1_0000_0000 - 100 * j - 25)
  {
  }

  lemma TailWrap(Z: int, j: int)
    requires 0 <= j <= 881 && Z == if j == 0 then 0 else 0x1_0000_0000 - j
    ensures Wrap32(100 * Z - 25) == 0x1_0000_0000 - 100 * j - 25
  {
  }

  /** rdn_to_ymd accepts every day of the years 0 to 9999 and, because of unsigned
      wrap-around, also the last 1187 values of uint32_t; it rejects all others. */
  lemma AcceptedDays(rdn: u32, b: Baum)
    requires IsBaum(rdn, b)
    ensures Accepts(b) <==> rdn < DAY_LIMIT || rdn >= 0x1_0000_0000 - 1187
  {
    if rdn < DAY_LIMIT {
      BaumInRange(rdn, b);
    } else if rdn <= 42949672 - 306 {
      EarlyRejects(rdn, b);
    } else if rdn < 0x1_0000_0000 - 1187 {
      LateRejects(rdn, b);
    } else {
      TailAccepts(rdn, b);
    }
  }

  /** The straight-line part of rdn_to_ymd, up to the January/February correction. */
  function BaumLocals(rdn: u32): Baum {
    var Z := Wrap32(rdn + 306);
    var H := Wrap32(100 * Z - 25);
    var A := H / 3652425;
    var B := Wrap32(A - A / 4);
    var y := Wrap32(100 * B + H) / 36525;
    var d := Wrap32(B + Z - Wrap32(1461 * y) / 4);
    var m := Wrap32(535 * d + 48950) / 16384;
    Baum(Z, H, A, B, y, d, m)
  }

  lemma BaumResult(rdn: u32, b: Baum)
    requires b == BaumLocals(rdn)
    ensures Accepts(b) <==> rdn < DAY_LIMIT || rdn >= 0x1_0000_0000 - 1187
    ensures rdn < DAY_LIMIT ==> 3 <= b.m <= 14 && FromMarch(b.y, b.d, b.m) == CalendarDate(rdn)
    ensures b.y < 117600
  {
    BaumSum(rdn, b);
    AcceptedDays(rdn, b);
    if rdn < DAY_LIMIT {
      BaumInRange(rdn, b);
    }
  }

  method BaumParts(rdn: u32) returns (b: Baum)
    ensures Accepts(b) <==> rdn < DAY_LIMIT || rdn >= 0x1_0000_0000 - 1187
    ensures rdn < DAY_LIMIT ==> 3 <= b.m <= 14 && FromMarch(b.y, b.d, b.m) == CalendarDate(rdn)
    ensures b.y < 117600
  {
    b := BaumLocals(rdn);
    BaumResult(rdn, b);
  }

  /** rdn_to_ymd. The return value is that of BAIL_IF: 1 when the check fails. */
  method RdnToYmd(rdn: u32) returns (rc: int, yp: u16, mp: u16, dp: u16)
    ensures rc == 0 <==> rdn < DAY_LIMIT || rdn >= 0x1_0000_0000 - 1187
    ensures rdn < DAY_LIMIT ==> Date(yp, mp, dp) == CalendarDate(rdn)
    ensures rc == 0 ==> yp <= 9999 && mp <= 12
    ensures rc != 0 ==> rc == 1
  {
    var b := BaumParts(rdn);
    var y, m, d := b.y, b.m, b.d;
    if m > 12 {
      y := y + 1;
      m := m - 12;
    }
    if y > 9999 || m > 12 || d > 31 + DAY_OFFSET[m] {
      return 1, 0, 0, 0;
    }
    return 0, y, m, (d - DAY_OFFSET[m]) % 0x1_0000;
  }

  // ---------- rfc3339_format ----------

  /** "YYYY-MM-DD hh:mm:ss" */
  function DateTimeText(d: Date, tod: nat): (s: string)
    requires 0 <= d.year && 0 <= d.month && 0 <= d.day && tod < SECONDS_PER_DAY
    ensures |s| == 19
  {
    Digits(d.year, 4) + ("-" + (Digits(d.month, 2) + ("-" + (Digits(d.day, 2) + (" "
      + (Digits(tod / 3600, 2) + (":" + (Digits(tod / 60 % 60, 2) + (":" + Digits(tod % 60, 2))))))))))
  }

  predicate InRange(seconds: int) {
    0 <= seconds + EPOCH < DAY_LIMIT * SECONDS_PER_DAY
  }

  /** The date and time of day of a timestamp in range, as text. */
  function TimestampText(seconds: int): (s: string)
    requires InRange(seconds)
    ensures |s| == 19
  {
    var t := seconds + EPOCH;
    var n: nat := t / SECONDS_PER_DAY;
    CalendarDateYear(n);
    DateTimeText(CalendarDate(n), t % SECONDS_PER_DAY)
  }

  lemma CalendarDateYear(n: nat)
    requires n < DAY_LIMIT
    ensures 0 <= CalendarDate(n).year <= 9999
  {
    CalendarDateNumber(n);
    YearBound(CalendarDate(n), n);
  }

  lemma TwoDigits(n: nat)
    ensures Digits(n, 2) == [DigitChar(n / 10 % 10), DigitChar(n % 10)]
  {
    assert Digits(n / 10, 1) == [DigitChar(n / 10 % 10)] by {
      assert Digits(n / 10 / 10, 0) == "";
    }
  }

  lemma FourDigits(n: nat)
    ensures Digits(n, 4)
         == [DigitChar(n / 10 / 10 / 10 % 10), DigitChar(n / 10 / 10 % 10), DigitChar(n / 10 % 10), DigitChar(n % 10)]
  {
    TwoDigits(n / 10 / 10);
    assert Digits(n / 10, 3) == Digits(n / 10 / 10, 2) + [DigitChar(n / 10 % 10)];
  }

  lemma Sexagesimal(x: nat)
    ensures x % 60 % 10 == x % 10 && x % 60 / 10 % 10 == x / 10 % 6
  {
    assert x % 60 == x - 60 * (x / 60);
  }

  lemma TimeDigits(v: nat)
    requires v < SECONDS_PER_DAY
    ensures v / 60 == v / 10 / 6 && v / 3600 == v / 10 / 6 / 10 / 6
    ensures Digits(v % 60, 2) == [DigitChar(v / 10 % 6), DigitChar(v % 10)]
    ensures Digits(v / 60 % 60, 2) == [DigitChar(v / 10 / 6 / 10 % 6), DigitChar(v / 10 / 6 % 10)]
    ensures Digits(v / 3600, 2) == [DigitChar(v / 10 / 6 / 10 / 6 / 10 % 10), DigitChar(v / 10 / 6 / 10 / 6 % 10)]
  {
    TwoDigits(v % 60);
    Sexagesimal(v);
    TwoDigits(v / 60 % 60);
    Sexagesimal(v / 60);
    TwoDigits(v / 3600);
  }

  /** The 32-bit day number the formatter works with. */
  function RdnOf(seconds: int): u32 {
    Wrap32(Wrap64(seconds + EPOCH) / SECONDS_PER_DAY)
  }

  /** The time-of-day half of the buffer, filled from the right. */
  method PutTime(p: array<char>, v0: nat)
    requires p.Length >= 20 && v0 < SECONDS_PER_DAY
    modifies p
    ensures p[..10] == old(p[..10]) && p[19..] == old(p[19..])
    ensures p[10..19] == " " + (Digits(v0 / 3600, 2) + (":" + (Digits(v0 / 60 % 60, 2) + (":" + Digits(v0 % 60, 2)))))
  {
    TimeDigits(v0);
    var v := v0;
    p[18] := DigitChar(v % 10);
    v := v / 10;
    p[17] := DigitChar(v % 6);
    v := v / 6;
    p[16] := ':';
    p[15] := DigitChar(v % 10);
    v := v / 10;
    p[14] := DigitChar(v % 6);
    v := v / 6;
    p[13] := ':';
    p[12] := DigitChar(v % 10);
    v := v / 10;
    p[11] := DigitChar(v % 10);
    p[10] := ' ';
  }

  /** The date half of the buffer, filled from the right. */
  method PutDate(p: array<char>, y0: nat, m0: nat, d0: nat)
    requires p.Length >= 20
    modifies p
    ensures p[10..] == old(p[10..])
    ensures p[..10] == Digits(y0, 4) + ("-" + (Digits(m0, 2) + ("-" + Digits(d0, 2))))
  {
    FourDigits(y0);
    TwoDigits(m0);
    TwoDigits(d0);
    var y, m, d := y0, m0, d0;
    p[9] := DigitChar(d % 10);
    d := d / 10;
    p[8] := DigitChar(d % 10);
    p[7] := '-';
    p[6] := DigitChar(m % 10);
    m := m / 10;
    p[5] := DigitChar(m % 10);
    p[4] := '-';
    p[3] := DigitChar(y % 10);
    y := y / 10;
    p[2] := DigitChar(y % 10);
    y := y / 10;
    p[1] := DigitChar(y % 10);
    y := y / 10;
    p[0] := DigitChar(y % 10);
  }

  lemma DateTimeParts(d: Date, tod: nat)
    requires 0 <= d.year && 0 <= d.month && 0 <= d.day && tod < SECONDS_PER_DAY
    ensures DateTimeText(d, tod)
         == (Digits(d.year, 4) + ("-" + (Digits(d.month, 2) + ("-" + Digits(d.day, 2)))))
          + (" " + (Digits(tod / 3600, 2) + (":" + (Digits(tod / 60 % 60, 2) + (":" + Digits(tod % 60, 2))))))
  {
  }

  method PutText(p: array<char>, y: nat, m: nat, d: nat, v: nat)
    requires p.Length >= 20 && v < SECONDS_PER_DAY
    modifies p
    ensures p[..20] == DateTimeText(Date(y, m, d), v) + ['\0']
    ensures p[20..] == old(p[20..])
  {
    PutTime(p, v);
    ghost var tail := p[10..19];
    PutDate(p, y, m, d);
    assert p[10..19] == tail;
    DateTimeParts(Date(y, m, d), v);
    ghost var before := p[..];
    p[19] := '\0';
    JoinText(before, p[..]);
  }

  lemma JoinText(was: string, now: string)
    requires |was| == |now| >= 20 && now == was[19 := now[19]]
    ensures now[..20] == (was[..10] + was[10..19]) + [now[19]] && now[20..] == was[20..]
  {
  }

  lemma RdnInRange(seconds: int)
    requires InRange(seconds)
    ensures RdnOf(seconds) == (seconds + EPOCH) / SECONDS_PER_DAY < DAY_LIMIT
    ensures Wrap64(seconds + EPOCH) == seconds + EPOCH
  {
  }

  /** What is written for an accepted day number: the date of the day number left after
      truncation to 32 bits, and the time of day. */
  function ShownText(seconds: int): string
    requires RdnOf(seconds) < DAY_LIMIT
  {
    CalendarDateYear(RdnOf(seconds));
    DateTimeText(CalendarDate(RdnOf(seconds)), Wrap64(seconds + EPOCH) % SECONDS_PER_DAY)
  }

  /** rfc3339_format. The 64-bit signed sum must not overflow, as C requires. */
  method Rfc3339Format(dst: array<char>, len: nat, seconds: int) returns (rc: int)
    requires len <= dst.Length
    requires -0x8000_0000_0000_0000 <= seconds < 0x8000_0000_0000_0000 - EPOCH
    modifies dst
    ensures rc == 0 <==> len > 19 && (RdnOf(seconds) < DAY_LIMIT || RdnOf(seconds) >= 0x1_0000_0000 - 1187)
    ensures RdnOf(seconds) < DAY_LIMIT && len > 19 ==> rc == 0 && dst[..20] == ShownText(seconds) + ['\0']
    ensures rc == 0 ==> dst[20..] == old(dst[20..])
    ensures rc != 0 ==> dst[..] == old(dst[..])
  {
    var dlen := 19;
    if dlen >= len {
      return 1;
    }
    var sec := Wrap64(seconds + EPOCH);
    var rdn := Wrap32(sec / SECONDS_PER_DAY);
    var e, y, m, d := RdnToYmd(rdn);
    if e != 0 {
      return 1;
    }
    PutText(dst, y, m, d, sec % SECONDS_PER_DAY);
    rc := 0;
  }

  /** In range, what is shown is the timestamp. */
  lemma ShownInRange(seconds: int)
    requires InRange(seconds)
    ensures RdnOf(seconds) < DAY_LIMIT && ShownText(seconds) == TimestampText(seconds)
  {
    RdnInRange(seconds);
  }

  // ---------- what the text means ----------

  /** The number in the k digits at offset i, or -1 if they are not digits. */
  function Field(s: string, i: nat, k: nat): int
    requires i + k <= |s|
  {
    if AllDigits(s[i..i + k]) then NatOf(s[i..i + k]) else -1
  }

  /** Reads "YYYY-MM-DD hh:mm:ss" back into seconds since 1970-01-01. */
  function ReadTimestamp(s: string): Option<int> {
    if |s| != 19 || s[4] != '-' || s[7] != '-' || s[10] != ' ' || s[13] != ':' || s[16] != ':' then None
    else
      var d := Date(Field(s, 0, 4), Field(s, 5, 2), Field(s, 8, 2));
      var h, m, x := Field(s, 11, 2), Field(s, 14, 2), Field(s, 17, 2);
      if d.year < 0 || !ValidDate(d) || !(0 <= h < 24) || !(0 <= m < 60) || !(0 <= x < 60) then None
      else Some(DayNumber(d) * SECONDS_PER_DAY + h * 3600 + m * 60 + x - EPOCH)
  }

  lemma FieldValue(s: string, i: nat, k: nat, n: nat)
    requires i + k <= |s| && s[i..i + k] == Digits(n, k) && n < Pow10(k)
    ensures Field(s, i, k) == n
  {
    NatOfDigits(n, k);
  }

  ghost predicate HasFields(s: string, d: Date, h: nat, m: nat, x: nat) {
    && |s| == 19 && ValidDate(d) && 0 <= d.year
    && s[..4] == Digits(d.year, 4) && s[5..7] == Digits(d.month, 2) && s[8..10] == Digits(d.day, 2)
    && s[11..13] == Digits(h, 2) && s[14..16] == Digits(m, 2) && s[17..19] == Digits(x, 2)
    && s[4] == s[7] == '-' && s[10] == ' ' && s[13] == s[16] == ':'
  }

  /** At offset o of s: a field up to e, a separator, and the rest from n on. */
  lemma CutField(s: string, o: nat, e: nat, n: nat, f: string, sep: string, rest: string)
    requires o <= |s| && |sep| == 1 && e == o + |f| && n == e + 1 && s[o..] == f + (sep + rest)
    ensures |s| == n + |rest| && s[o..e] == f && s[e] == sep[0] && s[n..] == rest
  {
    var t := s[o..];
    assert t[..|f|] == f && t[|f|] == sep[0] && t[|f| + 1..] == rest;
    assert s[o..e] == t[..|f|] && s[n..] == t[|f| + 1..];
  }

  /** The fields and separators of a text put together from them. */
  lemma SplitText(y: string, mo: string, d: string, h: string, m: string, x: string, s: string)
    requires |y| == 4 && |mo| == |d| == |h| == |m| == |x| == 2
    requires s == y + ("-" + (mo + ("-" + (d + (" " + (h + (":" + (m + (":" + x)))))))))
    ensures |s| == 19 && s[..4] == y && s[5..7] == mo && s[8..10] == d
    ensures s[11..13] == h && s[14..16] == m && s[17..19] == x
    ensures s[4] == s[7] == '-' && s[10] == ' ' && s[13] == s[16] == ':'
  {
    var s5 := m + (":" + x);
    var s4 := h + (":" + s5);
    var s3 := d + (" " + s4);
    var s2 := mo + ("-" + s3);
    assert s[0..] == s && s[0..4] == s[..4];
    CutField(s, 0, 4, 5, y, "-", s2);
    CutField(s, 5, 7, 8, mo, "-", s3);
    CutField(s, 8, 10, 11, d, " ", s4);
    CutField(s, 11, 13, 14, h, ":", s5);
    CutField(s, 14, 16, 17, m, ":", x);
    assert s[17..19] == s[17..];
  }

  lemma FieldsOfText(d: Date, tod: nat)
    requires ValidDate(d) && 0 <= d.year && tod < SECONDS_PER_DAY
    ensures HasFields(DateTimeText(d, tod), d, tod / 3600, tod / 60 % 60, tod % 60)
  {
    SplitText(Digits(d.year, 4), Digits(d.month, 2), Digits(d.day, 2), Digits(tod / 3600, 2),
              Digits(tod / 60 % 60, 2), Digits(tod % 60, 2), DateTimeText(d, tod));
  }

  lemma ReadFields(s: string, d: Date, h: nat, m: nat, x: nat)
    requires HasFields(s, d, h, m, x) && d.year <= 9999 && h < 24 && m < 60 && x < 60
    ensures ReadTimestamp(s) == Some(DayNumber(d) * SECONDS_PER_DAY + h * 3600 + m * 60 + x - EPOCH)
  {
    FieldWidths();
    FieldValue(s, 0, 4, d.year);
    FieldValue(s, 5, 2, d.month);
    FieldValue(s, 8, 2, d.day);
    FieldValue(s, 11, 2, h);
    FieldValue(s, 14, 2, m);
    FieldValue(s, 17, 2, x);
    ReadFrom(s, d, h, m, x);
  }

  lemma ReadFrom(s: string, d: Date, h: nat, m: nat, x: nat)
    requires |s| == 19 && s[4] == s[7] == '-' && s[10] == ' ' && s[13] == s[16] == ':'
    requires Field(s, 0, 4) == d.year && Field(s, 5, 2) == d.month && Field(s, 8, 2) == d.day
    requires Field(s, 11, 2) == h && Field(s, 14, 2) == m && Field(s, 17, 2) == x
    requires ValidDate(d) && 0 <= d.year && h < 24 && m < 60 && x < 60
    ensures ReadTimestamp(s) == Some(DayNumber(d) * SECONDS_PER_DAY + h * 3600 + m * 60 + x - EPOCH)
  {
    assert Date(Field(s, 0, 4), Field(s, 5, 2), Field(s, 8, 2)) == d;
  }

  lemma SplitTime(tod: nat)
    requires tod < SECONDS_PER_DAY
    ensures tod == tod / 3600 * 3600 + tod / 60 % 60 * 60 + tod % 60
    ensures tod / 3600 < 24 && tod / 60 / 60 == tod / 3600
  {
  }

  lemma FieldWidths()
    ensures Pow10(2) == 100 && Pow10(4) == 10000
  {
    assert Pow10(1) == 10 && Pow10(3) == 1000;
  }

  lemma ReadDateTime(d: Date, tod: nat)
    requires ValidDate(d) && 0 <= d.year <= 9999 && tod < SECONDS_PER_DAY
    ensures ReadTimestamp(DateTimeText(d, tod)) == Some(DayNumber(d) * SECONDS_PER_DAY + tod - EPOCH)
  {
    FieldsOfText(d, tod);
    SplitTime(tod);
    ReadFields(DateTimeText(d, tod), d, tod / 3600, tod / 60 % 60, tod % 60);
  }

  lemma TimestampParts(seconds: int) returns (n: nat, tod: nat)
    requires InRange(seconds)
    ensures n < DAY_LIMIT && tod < SECONDS_PER_DAY && seconds + EPOCH == n * SECONDS_PER_DAY + tod
    ensures 0 <= CalendarDate(n).year <= 9999
    ensures TimestampText(seconds) == DateTimeText(CalendarDate(n), tod)
  {
    n := (seconds + EPOCH) / SECONDS_PER_DAY;
    tod := (seconds + EPOCH) % SECONDS_PER_DAY;
    CalendarDateYear(n);
  }

  /** Timestamps count from 1970-01-01, and the range ends with the year 9999. */
  lemma EpochIs()
    ensures EPOCH == DayNumber(Date(1970, 1, 1)) * 86400 && SECONDS_PER_DAY == 86400
    ensures DAY_LIMIT == DayNumber(Date(9999, 12, 31)) + 1
  {
  }

  /** In range the text is the date and time of a real calendar day, and reading it
      back gives exactly the timestamp; so no two timestamps share a text. */
  lemma ReadBack(seconds: int)
    requires InRange(seconds)
    ensures ReadTimestamp(TimestampText(seconds)) == Some(seconds)
  {
    var n, tod := TimestampParts(seconds);
    CalendarDateNumber(n);
    ReadDateTime(CalendarDate(n), tod);
  }

  lemma LexField(n: nat, m: nat, k: nat, s: string, t: string)
    requires n < Pow10(k) && m < Pow10(k)
    ensures LexLess(Digits(n, k) + s, Digits(m, k) + t) <==> n < m || (n == m && LexLess(s, t))
  {
    NatOfDigits(n, k);
    NatOfDigits(m, k);
    LexIsNumeric(Digits(n, k), Digits(m, k));
    LexConcat(Digits(n, k), s, Digits(m, k), t);
  }

  lemma LexSeparator(c: string, s: string, t: string)
    requires |c| == 1
    ensures LexLess(c + s, c + t) <==> LexLess(s, t)
  {
    assert c[1..] == "" && (c + s)[1..] == s && (c + t)[1..] == t;
  }

  function TimeText(tod: nat): string {
    Digits(tod / 3600, 2) + (":" + (Digits(tod / 60 % 60, 2) + (":" + Digits(tod % 60, 2))))
  }

  lemma TimeTextOrder(a: nat, b: nat)
    requires a < SECONDS_PER_DAY && b < SECONDS_PER_DAY
    ensures LexLess(TimeText(a), TimeText(b)) <==> a < b
  {
    FieldWidths();
    SplitTime(a);
    SplitTime(b);
    LexField(a % 60, b % 60, 2, "", "");
    assert Digits(a % 60, 2) + "" == Digits(a % 60, 2) && Digits(b % 60, 2) + "" == Digits(b % 60, 2);
    LexSeparator(":", Digits(a % 60, 2), Digits(b % 60, 2));
    LexField(a / 60 % 60, b / 60 % 60, 2, ":" + Digits(a % 60, 2), ":" + Digits(b % 60, 2));
    var sa := Digits(a / 60 % 60, 2) + (":" + Digits(a % 60, 2));
    var sb := Digits(b / 60 % 60, 2) + (":" + Digits(b % 60, 2));
    LexSeparator(":", sa, sb);
    LexField(a / 3600, b / 3600, 2, ":" + sa, ":" + sb);
  }

  lemma DateTimeTextOrder(d: Date, a: nat, e: Date, b: nat)
    requires ValidDate(d) && 0 <= d.year <= 9999 && a < SECONDS_PER_DAY
    requires ValidDate(e) && 0 <= e.year <= 9999 && b < SECONDS_PER_DAY
    ensures LexLess(DateTimeText(d, a), DateTimeText(e, b)) <==> DateLess(d, e) || (d == e && a < b)
  {
    FieldWidths();
    TimeTextOrder(a, b);
    var s, t := " " + TimeText(a), " " + TimeText(b);
    LexSeparator(" ", TimeText(a), TimeText(b));
    LexField(d.day, e.day, 2, s, t);
    s, t := Digits(d.day, 2) + s, Digits(e.day, 2) + t;
    LexSeparator("-", s, t);
    LexField(d.month, e.month, 2, "-" + s, "-" + t);
    s, t := Digits(d.month, 2) + ("-" + s), Digits(e.month, 2) + ("-" + t);
    LexSeparator("-", s, t);
    LexField(d.year, e.year, 4, "-" + s, "-" + t);
  }

  /** Text order is time order. */
  lemma TextOrder(a: int, b: int)
    requires InRange(a) && InRange(b)
    ensures LexLess(TimestampText(a), TimestampText(b)) <==> a < b
  {
    var n, x := TimestampParts(a);
    var m, y := TimestampParts(b);
    CalendarDateNumber(n);
    CalendarDateNumber(m);
    DateOrder(CalendarDate(n), CalendarDate(m));
    DateTimeTextOrder(CalendarDate(n), x, CalendarDate(m), y);
    HighDigitDecides(n, x, m, y, SECONDS_PER_DAY);
  }

  /** The formatter does not reject every timestamp out of range: at 2^32 days after
      0000-12-31 the day number has wrapped to 0, so that day is shown as 0000-12-31. */
  lemma WrappedTimestampAccepted()
    ensures var seconds := 0x1_0000_0000 * SECONDS_PER_DAY - EPOCH;
            !InRange(seconds) && RdnOf(seconds) == 0 && RdnOf(seconds) < DAY_LIMIT
  {
    assert Wrap64(0x1_0000_0000 * SECONDS_PER_DAY) / SECONDS_PER_DAY == 0x1_0000_0000;
  }
}

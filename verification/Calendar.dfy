/** Dates of `harness-capability/src/promotion.rs`: days since 1970-01-01 as proleptic
    Gregorian dates (ISO 8601:2004, section 3.2.1), and back. */
module Calendar {
  import opened Text

  datatype Date = Date(y: int, m: int, d: int)

  // ---------- the calendar ----------

  predicate IsLeap(y: int) {
    y % 4 == 0 && (y % 100 != 0 || y % 400 == 0)
  }

  function MonthLength(y: int, m: int): int {
    if m == 2 then (if IsLeap(y) then 29 else 28)
    else if m in {4, 6, 9, 11} then 30
    else 31
  }

  predicate ValidDate(a: Date) {
    1 <= a.m <= 12 && 1 <= a.d <= MonthLength(a.y, a.m)
  }

  /** The next day. */
  function Next(a: Date): Date {
    if a.d < MonthLength(a.y, a.m) then a.(d := a.d + 1)
    else if a.m < 12 then Date(a.y, a.m + 1, 1)
    else Date(a.y + 1, 1, 1)
  }

  predicate Earlier(a: Date, b: Date) {
    a.y < b.y || (a.y == b.y && (a.m < b.m || (a.m == b.m && a.d < b.d)))
  }

  // ---------- the algorithm ----------

  /** Integer division that truncates towards zero. */
  function TruncDiv(a: int, b: int): int
    requires b > 0
  {
    if a >= 0 then a / b else -(-a / b)
  }

  const ERA := 146_097

  function YearOfEra(doe: int): int {
    (doe - doe / 1460 + doe / 36524 - doe / 146_096) / 365
  }

  /** From a year that starts in March, and the day in it. */
  function MarchDate(year: int, doy: int): Date {
    var mp := (5 * doy + 2) / 153;
    var d := doy - (153 * mp + 2) / 5 + 1;
    var m := if mp < 10 then mp + 3 else mp - 9;
    Date(year + (if m <= 2 then 1 else 0), m, d)
  }

  function CivilFromDays(z0: int): Date {
    var z := z0 + 719_468;
    var era := TruncDiv(if z >= 0 then z else z - 146_096, ERA);
    var doe := z - era * ERA;
    var yoe := YearOfEra(doe);
    MarchDate(yoe + era * 400, doe - (365 * yoe + yoe / 4 - yoe / 100))
  }

  // ---------- the year of an era ----------

  /** Day of the era on which its year `y` starts. */
  function YearStart(y: int): int {
    365 * y + y / 4 - y / 100
  }

  /** The last day of a March year is the leap day of the next year. */
  function YearLength(y: int): int {
    if IsLeap(y + 1) then 366 else 365
  }

  lemma {:induction false} Multiple(k: int, m: int)
    requires m > 0
    ensures k > 0 ==> k * m >= m
    ensures k < 0 ==> k * m <= -m
  {
  }

  lemma {:induction false} Quotient(x: int, q: int, r: int, m: int)
    requires 0 <= r < m && x == q * m + r
    ensures x / m == q && x % m == r
  {
    Multiple(x / m - q, m);
    assert (x / m - q) * m == r - x % m;
  }

  lemma {:induction false} YearOfParts(c: int, q: int, k: int, doy: int)
    requires 0 <= c < 4 && 0 <= q < 25 && 0 <= k < 4
    requires 0 <= doy <= 365 && (doy == 365 ==> k == 3 && (q < 24 || c == 3))
    ensures YearOfEra(36524 * c + 1461 * q + 365 * k + doy) == 100 * c + 4 * q + k
  {
    var doe := 36524 * c + 1461 * q + 365 * k + doy;
    var over := 24 * c + q + 365 * k + doy;
    var e1 := if over >= 1460 then 1 else 0;
    Quotient(doe, 25 * c + q + e1, over - 1460 * e1, 1460);
    var low := 1461 * q + 365 * k + doy;
    var e2 := if low >= 36524 then 1 else 0;
    Quotient(doe, c + e2, low - 36524 * e2, 36524);
    var e3 := if c == 3 && e2 == 1 then 1 else 0;
    Quotient(doe, e3, doe - 146_096 * e3, 146_096);
    Quotient(doe - (25 * c + q + e1) + (c + e2) - e3, 100 * c + 4 * q + k, doy - e1 + e2 - e3, 365);
  }

  lemma {:induction false} YearParts(c: int, q: int, k: int)
    requires 0 <= c < 4 && 0 <= q < 25 && 0 <= k < 4
    ensures var y := 100 * c + 4 * q + k;
            && YearStart(y) == 36524 * c + 1461 * q + 365 * k
            && (YearLength(y) == 366 <==> k == 3 && (q < 24 || c == 3))
  {
    var y := 100 * c + 4 * q + k;
    assert y / 100 == c && y / 4 == 25 * c + q;
    assert (y + 1) % 4 == 0 <==> k == 3;
    assert (y + 1) % 100 == 0 <==> 4 * q + k == 99;
    assert (y + 1) % 400 == 0 <==> y == 399;
  }

  /** The formula finds the year whose days contain the given one. */
  lemma {:induction false} YearOfEraIs(doe: int)
    requires 0 <= doe < ERA
    ensures 0 <= YearOfEra(doe) < 400
    ensures 0 <= doe - YearStart(YearOfEra(doe)) < YearLength(YearOfEra(doe))
  {
    var c := if doe / 36524 > 3 then 3 else doe / 36524;
    var r := doe - 36524 * c;
    assert 0 <= r <= 36524 && (r == 36524 ==> c == 3);
    var q := r / 1461;
    var s := r - 1461 * q;
    assert 0 <= s < 1461 && 0 <= q < 25;
    hide YearOfEra, YearStart, YearLength;
    var k := if s / 365 > 3 then 3 else s / 365;
    var doy := s - 365 * k;
    YearOfParts(c, q, k, doy);
    YearParts(c, q, k);
  }

  lemma {:induction false} YearStartStep(y: int)
    requires 0 <= y
    ensures y < 399 ==> YearStart(y + 1) == YearStart(y) + YearLength(y)
    ensures y == 399 ==> YearStart(y) + YearLength(y) == ERA
  {
    assert (y + 1) / 4 == y / 4 + if (y + 1) % 4 == 0 then 1 else 0;
    assert (y + 1) / 100 == y / 100 + if (y + 1) % 100 == 0 then 1 else 0;
    assert y < 399 ==> (y + 1) % 400 != 0;
    assert (y + 1) % 100 == 0 ==> (y + 1) % 4 == 0;
  }

  lemma {:induction false} YearStartMonotone(a: int, b: int)
    requires 0 <= a < b < 400
    ensures YearStart(a) + YearLength(a) <= YearStart(b)
    decreases b - a
  {
    YearStartStep(a);
    if a + 1 < b {
      YearStartMonotone(a + 1, b);
    }
  }

  lemma {:induction false} YearOfEraUnique(doe: int, y: int)
    requires 0 <= doe < ERA && 0 <= y < 400 && 0 <= doe - YearStart(y) < YearLength(y)
    ensures YearOfEra(doe) == y
  {
    YearOfEraIs(doe);
    var r := YearOfEra(doe);
    if r < y {
      YearStartMonotone(r, y);
    } else if y < r {
      YearStartMonotone(y, r);
    }
  }

  // ---------- eras ----------

  /** The truncating division with its correction is division rounding down. */
  lemma {:induction false} EraIsFloor(z: int)
    ensures TruncDiv(if z >= 0 then z else z - 146_096, ERA) == z / ERA
  {
    if z < 0 {
      var q, r := z / ERA, z % ERA;
      assert -(z - 146_096) == -q * ERA + (146_096 - r);
      assert 0 <= 146_096 - r < ERA;
    }
  }

  function MarchYear(z: int): int {
    YearOfEra(z % ERA) + z / ERA * 400
  }

  function MarchDay(z: int): int {
    z % ERA - YearStart(YearOfEra(z % ERA))
  }

  lemma {:induction false} CivilIsMarch(z0: int)
    ensures CivilFromDays(z0) == MarchDate(MarchYear(z0 + 719_468), MarchDay(z0 + 719_468))
  {
    hide YearOfEra, MarchDate, TruncDiv;
    var z := z0 + 719_468;
    EraIsFloor(z);
    assert z - z / ERA * ERA == z % ERA;
  }

  /** Whole eras change no remainder that decides about leap years. */
  lemma {:induction false} SameRemainders(y: int, n: int)
    ensures (y + n * 400) % 4 == y % 4
    ensures (y + n * 400) % 100 == y % 100
    ensures (y + n * 400) % 400 == y % 400
  {
    var t := y + n * 400;
    Quotient(t, y / 4 + n * 100, y % 4, 4);
    Quotient(t, y / 100 + n * 4, y % 100, 100);
    Quotient(t, y / 400 + n, y % 400, 400);
  }

  lemma {:induction false} LeapPeriod(y: int, n: int)
    ensures IsLeap(y + n * 400) == IsLeap(y)
  {
    SameRemainders(y, n);
  }

  lemma {:induction false} MarchDayBounds(z: int)
    ensures 0 <= MarchDay(z) < YearLength(MarchYear(z))
  {
    YearOfEraIs(z % ERA);
    LeapPeriod(YearOfEra(z % ERA) + 1, z / ERA);
  }

  lemma {:induction false} NextDay(z: int)
    ensures MarchDay(z) + 1 < YearLength(MarchYear(z)) ==>
              MarchYear(z + 1) == MarchYear(z) && MarchDay(z + 1) == MarchDay(z) + 1
    ensures MarchDay(z) + 1 == YearLength(MarchYear(z)) ==>
              MarchYear(z + 1) == MarchYear(z) + 1 && MarchDay(z + 1) == 0
  {
    hide YearOfEra, YearStart, YearLength;
    var doe := z % ERA;
    var yoe := YearOfEra(doe);
    YearOfEraIs(doe);
    SameLength(yoe, z / ERA);
    YearStartStep(yoe);
    if doe + 1 < ERA {
      assert (z + 1) % ERA == doe + 1 && (z + 1) / ERA == z / ERA;
      if MarchDay(z) + 1 < YearLength(MarchYear(z)) {
        YearOfEraUnique(doe + 1, yoe);
      } else {
        LongYear(yoe + 1);
        YearOfEraUnique(doe + 1, yoe + 1);
      }
    } else {
      assert (z + 1) % ERA == 0 && (z + 1) / ERA == z / ERA + 1;
      LastYear(yoe);
      FirstYear();
      YearOfEraUnique(0, 0);
    }
  }

  lemma {:induction false} SameLength(yoe: int, era: int)
    ensures YearLength(yoe + era * 400) == YearLength(yoe)
  {
    LeapPeriod(yoe + 1, era);
  }

  lemma {:induction false} LongYear(y: int)
    ensures YearLength(y) >= 365
  {
  }

  lemma {:induction false} FirstYear()
    ensures YearStart(0) == 0 && YearLength(0) >= 365
  {
  }

  /** Only year 399 reaches the end of the era. */
  lemma {:induction false} LastYear(yoe: int)
    requires 0 <= yoe < 400 && ERA - 1 - YearStart(yoe) < YearLength(yoe)
    ensures yoe == 399 && YearStart(yoe) + YearLength(yoe) == ERA
  {
    YearStartStep(399);
    if yoe < 399 {
      YearStartMonotone(yoe, 399);
      LongYear(399);
    }
  }

  // ---------- months ----------

  lemma {:induction false} MarchDateValid(year: int, doy: int)
    requires 0 <= doy < YearLength(year)
    ensures ValidDate(MarchDate(year, doy))
  {
    MonthOfDay(doy);
  }

  /** The twelve months of a year that starts in March. */
  lemma {:induction false} MonthOfDay(doy: int)
    requires 0 <= doy <= 365
    ensures var mp := (5 * doy + 2) / 153;
            && 0 <= mp < 12
            && (153 * mp + 2) / 5 <= doy
            && (mp < 11 ==> doy < (153 * (mp + 1) + 2) / 5)
  {
  }

  lemma {:induction false} MarchDateNext(year: int, doy: int)
    requires 0 <= doy < YearLength(year)
    ensures doy + 1 < YearLength(year) ==> Next(MarchDate(year, doy)) == MarchDate(year, doy + 1)
    ensures doy + 1 == YearLength(year) ==> Next(MarchDate(year, doy)) == MarchDate(year + 1, 0)
  {
    hide YearLength, IsLeap;
    LengthOfFebruary(year);
    MonthOfDay(doy);
    MonthOfDay(if doy < 365 then doy + 1 else doy);
  }

  lemma {:induction false} LengthOfFebruary(year: int)
    ensures YearLength(year) == 337 + MonthLength(year + 1, 2) && 365 <= YearLength(year) <= 366
  {
  }

  // ---------- the main results ----------

  lemma {:induction false} CivilIsValid(z: int)
    ensures ValidDate(CivilFromDays(z))
  {
    hide MarchDate, ValidDate, YearLength, MarchYear, MarchDay, CivilFromDays;
    CivilIsMarch(z);
    MarchDayBounds(z + 719_468);
    MarchDateValid(MarchYear(z + 719_468), MarchDay(z + 719_468));
  }

  /** Day 0 is 1970-01-01, and the next day is always the next date. */
  lemma {:induction false} CivilNext(z: int)
    ensures CivilFromDays(0) == Date(1970, 1, 1)
    ensures CivilFromDays(z + 1) == Next(CivilFromDays(z))
  {
    hide MarchDate, Next, YearLength, MarchYear, MarchDay;
    var day := z + 719_468;
    CivilIsMarch(z);
    CivilIsMarch(z + 1);
    NextDay(day);
    MarchDayBounds(day);
    MarchDateNext(MarchYear(day), MarchDay(day));
    Epoch();
  }

  lemma {:induction false} Epoch()
    ensures CivilFromDays(0) == Date(1970, 1, 1)
  {
  }

  // ---------- the way back ----------

  /** Days before 1 January of year `y`, counted from 1 January of year 1. */
  function DaysBeforeYear(y: int): int {
    365 * (y - 1) + (y - 1) / 4 - (y - 1) / 100 + (y - 1) / 400
  }

  function DaysBeforeMonth(y: int, m: int): int
    requires 1 <= m <= 12
    decreases m
  {
    if m == 1 then 0 else DaysBeforeMonth(y, m - 1) + MonthLength(y, m - 1)
  }

  /** Days from 1970-01-01 to a date. */
  function DaysFromCivil(a: Date): int
    requires ValidDate(a)
  {
    DaysBeforeYear(a.y) + DaysBeforeMonth(a.y, a.m) + a.d - 1 - DaysBeforeYear(1970)
  }

  lemma {:induction false} YearDays(y: int)
    ensures DaysBeforeYear(y + 1) == DaysBeforeYear(y) + if IsLeap(y) then 366 else 365
  {
    assert y / 4 == (y - 1) / 4 + if y % 4 == 0 then 1 else 0;
    assert y / 100 == (y - 1) / 100 + if y % 100 == 0 then 1 else 0;
    assert y / 400 == (y - 1) / 400 + if y % 400 == 0 then 1 else 0;
    assert y % 400 == 0 ==> y % 100 == 0;
    assert y % 100 == 0 ==> y % 4 == 0;
  }

  lemma {:induction false} DecemberIsLast(y: int)
    ensures DaysBeforeMonth(y, 12) + 31 == if IsLeap(y) then 366 else 365
  {
    assert DaysBeforeMonth(y, 3) == 31 + MonthLength(y, 2);
    assert DaysBeforeMonth(y, 5) == DaysBeforeMonth(y, 3) + 61;
    assert DaysBeforeMonth(y, 7) == DaysBeforeMonth(y, 5) + 61;
    assert DaysBeforeMonth(y, 9) == DaysBeforeMonth(y, 7) + 62;
    assert DaysBeforeMonth(y, 11) == DaysBeforeMonth(y, 9) + 61;
  }

  /** The next date is one day later. */
  lemma {:induction false} NextIsOneLater(a: Date)
    requires ValidDate(a)
    ensures ValidDate(Next(a)) && Earlier(a, Next(a))
    ensures DaysFromCivil(Next(a)) == DaysFromCivil(a) + 1
  {
    hide DaysBeforeYear, IsLeap;
    YearDays(a.y);
    DecemberIsLast(a.y);
  }

  lemma {:induction false} CivilSteps(z: int, n: nat)
    ensures ValidDate(CivilFromDays(z)) && ValidDate(CivilFromDays(z + n))
    ensures DaysFromCivil(CivilFromDays(z)) == z ==> DaysFromCivil(CivilFromDays(z + n)) == z + n
    ensures DaysFromCivil(CivilFromDays(z + n)) == z + n ==> DaysFromCivil(CivilFromDays(z)) == z
    ensures n > 0 ==> Earlier(CivilFromDays(z), CivilFromDays(z + n))
    decreases n
  {
    hide CivilFromDays, DaysFromCivil, ValidDate, Next;
    CivilIsValid(z);
    CivilIsValid(z + n);
    if n > 0 {
      var m := z + n - 1;
      CivilIsValid(m);
      CivilSteps(z, n - 1);
      CivilNext(m);
      NextIsOneLater(CivilFromDays(m));
    }
  }

  /** Counting days back from a date gives the day the date was computed from. */
  lemma {:induction false} DaysUndoCivil(z: int)
    ensures ValidDate(CivilFromDays(z)) && DaysFromCivil(CivilFromDays(z)) == z
  {
    hide CivilFromDays, DaysFromCivil;
    CivilIsValid(z);
    Epoch();
    EpochDays();
    if z >= 0 {
      CivilSteps(0, z);
    } else {
      CivilSteps(z, -z);
    }
  }

  lemma {:induction false} EpochDays()
    ensures DaysFromCivil(Date(1970, 1, 1)) == 0
  {
  }

  /** Later days have later dates, so no two days share one. */
  lemma {:induction false} CivilMonotone(z: int, z': int)
    ensures z < z' <==> Earlier(CivilFromDays(z), CivilFromDays(z'))
    ensures CivilFromDays(z) == CivilFromDays(z') ==> z == z'
  {
    hide CivilFromDays;
    if z < z' {
      CivilSteps(z, z' - z);
    } else if z' < z {
      CivilSteps(z', z - z');
    }
  }

  lemma {:induction false} DaysOrder(a: Date, b: Date)
    requires ValidDate(a) && ValidDate(b) && Earlier(a, b)
    ensures DaysFromCivil(a) < DaysFromCivil(b)
  {
    hide DaysBeforeYear;
    if a.y == b.y {
      MonthsOrder(a.y, a.m, b.m);
    } else {
      MonthsOrder(a.y, a.m, 12);
      DecemberIsLast(a.y);
      YearDays(a.y);
      YearsOrder(a.y + 1, b.y);
      MonthsOrder(b.y, 1, b.m);
    }
  }

  lemma {:induction false} MonthsOrder(y: int, m: int, n: int)
    requires 1 <= m <= n <= 12
    ensures m < n ==> DaysBeforeMonth(y, m) + MonthLength(y, m) <= DaysBeforeMonth(y, n)
    decreases n - m
  {
    if m < n {
      MonthsOrder(y, m, n - 1);
    }
  }

  lemma {:induction false} YearsOrder(y: int, x: int)
    requires y <= x
    ensures DaysBeforeYear(y) <= DaysBeforeYear(x)
    decreases x - y
  {
    hide DaysBeforeYear;
    if y < x {
      YearDays(y);
      YearsOrder(y + 1, x);
    }
  }

  /** Every date there is comes from its day. */
  lemma {:induction false} CivilUndoesDays(a: Date)
    requires ValidDate(a)
    ensures CivilFromDays(DaysFromCivil(a)) == a
  {
    hide CivilFromDays, DaysFromCivil, ValidDate;
    var b := CivilFromDays(DaysFromCivil(a));
    DaysUndoCivil(DaysFromCivil(a));
    if Earlier(a, b) {
      DaysOrder(a, b);
    } else if Earlier(b, a) {
      DaysOrder(b, a);
    }
  }

  // ---------- dates as text ----------

  function Zeros(n: nat): (s: string)
    ensures |s| == n && forall i :: 0 <= i < n ==> s[i] == '0'
  {
    if n == 0 then "" else "0" + Zeros(n - 1)
  }

  function ZeroPadded(n: nat, width: nat): string {
    var digits := Decimal(n);
    Zeros(if |digits| < width then width - |digits| else 0) + digits
  }

  /** Zero padding to a width that counts the sign. */
  function Padded(n: int, width: nat): string
    requires width > 0
  {
    if n < 0 then "-" + ZeroPadded(-n, width - 1) else ZeroPadded(n, width)
  }

  function DateText(a: Date): string {
    Padded(a.y, 4) + "-" + Padded(a.m, 2) + "-" + Padded(a.d, 2)
  }

  /** The UTC date of a Unix time, in seconds. */
  function DateFromSecs(secs: int): string {
    DateText(CivilFromDays(secs / 86_400))
  }

  lemma {:induction false} LeadingZeros(n: nat, s: string)
    requires forall i :: 0 <= i < |s| ==> '0' <= s[i] <= '9'
    ensures forall i :: 0 <= i < |Zeros(n) + s| ==> '0' <= (Zeros(n) + s)[i] <= '9'
    ensures DecimalValue(Zeros(n) + s) == DecimalValue(s)
    decreases |s|, n
  {
    var t := Zeros(n) + s;
    if s != [] {
      LeadingZeros(n, s[..|s| - 1]);
      assert t[..|t| - 1] == Zeros(n) + s[..|s| - 1];
    } else if n > 0 {
      LeadingZeros(n - 1, s);
      ZerosEnd(n);
      assert t[..|t| - 1] == Zeros(n - 1) + s;
    }
  }

  lemma {:induction false} ZerosEnd(n: nat)
    requires n > 0
    ensures Zeros(n) == Zeros(n - 1) + "0"
  {
  }

  predicate IsDigits(s: string) {
    forall i :: 0 <= i < |s| ==> '0' <= s[i] <= '9'
  }

  /** The number a padded numeral stands for. */
  function PaddedValue(s: string): int
    requires s != [] && IsDigits(if s[0] == '-' then s[1..] else s)
  {
    if s[0] == '-' then 0 - DecimalValue(s[1..]) else DecimalValue(s)
  }

  lemma {:induction false} ZeroPaddedRoundTrip(n: nat, width: nat)
    ensures var s := ZeroPadded(n, width); s != [] && IsDigits(s) && DecimalValue(s) == n
  {
    hide Decimal, DecimalValue, Zeros;
    var digits := Decimal(n);
    LeadingZeros(if |digits| < width then width - |digits| else 0, digits);
    DecimalRoundTrip(n);
  }

  lemma {:induction false} PaddedRoundTrip(n: int, width: nat)
    requires width > 0
    ensures var s := Padded(n, width);
            s != [] && IsDigits(if s[0] == '-' then s[1..] else s) && PaddedValue(s) == n && '\n' !in s
  {
    hide ZeroPadded, DecimalValue;
    var s := Padded(n, width);
    if n < 0 {
      ZeroPaddedRoundTrip(-n, width - 1);
      assert s[1..] == ZeroPadded(-n, width - 1);
    } else {
      ZeroPaddedRoundTrip(n, width);
    }
  }

  lemma {:induction false} TwoDigits(n: nat)
    requires n < 100
    ensures |Padded(n, 2)| == 2
  {
    assert n >= 10 ==> |Decimal(n / 10)| == 1;
  }

  /** A date's text is one line and names the date. */
  lemma {:induction false} DateTextInjective(a: Date, b: Date)
    requires ValidDate(a) && ValidDate(b) && DateText(a) == DateText(b)
    ensures a == b
  {
    hide Padded;
    TwoDigits(a.m);
    TwoDigits(a.d);
    TwoDigits(b.m);
    TwoDigits(b.d);
    var s, t := DateText(a), DateText(b);
    var n := |s|;
    assert s[..n - 6] == Padded(a.y, 4) && t[..n - 6] == Padded(b.y, 4);
    assert s[n - 5..n - 3] == Padded(a.m, 2) && t[n - 5..n - 3] == Padded(b.m, 2);
    assert s[n - 2..] == Padded(a.d, 2) && t[n - 2..] == Padded(b.d, 2);
    PaddedRoundTrip(a.y, 4);
    PaddedRoundTrip(b.y, 4);
    PaddedRoundTrip(a.m, 2);
    PaddedRoundTrip(b.m, 2);
    PaddedRoundTrip(a.d, 2);
    PaddedRoundTrip(b.d, 2);
  }

  /** Year, month and day in decimal, in this order, with dashes between them. */
  predicate ReadsAs(s: string, a: Date) {
    var n := |s|;
    && n >= 7 && s[n - 6] == '-' && s[n - 3] == '-'
    && IsDigits(s[n - 5..n - 3]) && DecimalValue(s[n - 5..n - 3]) == a.m
    && IsDigits(s[n - 2..]) && DecimalValue(s[n - 2..]) == a.d
    && IsDigits(if s[0] == '-' then s[..n - 6][1..] else s[..n - 6]) && PaddedValue(s[..n - 6]) == a.y
  }

  /** A date's text reads as year, month and day, in this order. */
  lemma {:induction false} DateTextReads(a: Date)
    requires ValidDate(a)
    ensures ReadsAs(DateText(a), a)
  {
    assert 0 <= a.m < 100 && 0 <= a.d < 100;
    hide DateText, Padded, PaddedValue, IsDigits, DecimalValue, ValidDate;
    TwoDigits(a.m);
    TwoDigits(a.d);
    PaddedRoundTrip(a.y, 4);
    NumeralReads(a.m);
    NumeralReads(a.d);
    DateTextIs(a);
    ThreeParts(Padded(a.y, 4), Padded(a.m, 2), Padded(a.d, 2));
  }

  lemma {:induction false} DateTextIs(a: Date)
    ensures DateText(a) == Padded(a.y, 4) + "-" + Padded(a.m, 2) + "-" + Padded(a.d, 2)
  {
    hide Padded;
  }

  lemma {:induction false} ThreeParts(y: string, m: string, d: string)
    requires y != "" && |m| == 2 && |d| == 2
    ensures var s := y + "-" + m + "-" + d;
            var n := |s|;
            && n >= 7 && s[n - 6] == '-' && s[n - 3] == '-' && s[0] == y[0]
            && s[..n - 6] == y && s[n - 5..n - 3] == m && s[n - 2..] == d
  {
  }

  lemma {:induction false} NumeralReads(n: nat)
    ensures var s := Padded(n, 2); IsDigits(s) && DecimalValue(s) == n
  {
    hide ZeroPadded, DecimalValue;
    ZeroPaddedRoundTrip(n, 2);
  }

  lemma {:induction false} DateTextOneLine(a: Date)
    ensures '\n' !in DateText(a)
  {
    hide Padded;
    PaddedRoundTrip(a.y, 4);
    PaddedRoundTrip(a.m, 2);
    PaddedRoundTrip(a.d, 2);
  }

  /** Two times print the same date exactly when they lie on the same UTC day. */
  lemma {:induction false} SameDateSameDay(secs: int, secs': int)
    ensures DateFromSecs(secs) == DateFromSecs(secs') <==> secs / 86_400 == secs' / 86_400
  {
    hide CivilFromDays, DateText, ValidDate;
    var a, b := CivilFromDays(secs / 86_400), CivilFromDays(secs' / 86_400);
    CivilIsValid(secs / 86_400);
    CivilIsValid(secs' / 86_400);
    CivilMonotone(secs / 86_400, secs' / 86_400);
    if DateText(a) == DateText(b) {
      DateTextInjective(a, b);
    }
  }
}

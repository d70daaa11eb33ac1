/** Dates as days since 1970-01-01, and their text form. */
module DateTime {
  import opened Options

  datatype Civil = Civil(year: int, month: nat, day: nat)

  /** Division that truncates toward zero. */
  function Truncated(a: int, b: int): int
    requires b > 0
  {
    if a >= 0 then a / b else -((-a) / b)
  }

  predicate IsLeap(y: int) {
    y % 4 == 0 && (y % 100 != 0 || y % 400 == 0)
  }

  function DaysInMonth(y: int, m: nat): nat {
    if m in {1, 3, 5, 7, 8, 10, 12} then 31
    else if m in {4, 6, 9, 11} then 30
    else if m == 2 then if IsLeap(y) then 29 else 28
    else 0
  }

  predicate Valid(c: Civil) {
    1 <= c.month <= 12 && 1 <= c.day <= DaysInMonth(c.year, c.month)
  }

  // ------------------------------------------------------------------ the two conversions

  function DaysFromCivil(c: Civil): int {
    var y := if c.month <= 2 then c.year - 1 else c.year;
    var era := Truncated(if y >= 0 then y else y - 399, 400);
    var yoe := y - era * 400;
    var mp := (c.month + 9) % 12;
    var doy := (153 * mp + 2) / 5 + c.day - 1;
    var doe := yoe * 365 + yoe / 4 - yoe / 100 + doy;
    era * 146097 + doe - 719468
  }

  function CivilFromDays(days: int): Civil {
    var z := days + 719468;
    var era := Truncated(if z >= 0 then z else z - 146096, 146097);
    EraOfDays(z);
    InEra(era, z - era * 146097)
  }

  function InEra(era: int, doe: nat): Civil
    requires doe < 146097
  {
    var yoe := YearOfEra(doe);
    DayOfEra(doe);
    InMarchYear(yoe + era * 400, doe - (365 * yoe + yoe / 4 - yoe / 100))
  }

  /** The date of day `doy` of the year that starts in March of `y`. */
  function InMarchYear(y: int, doy: nat): Civil
    requires doy < 366
  {
    var mp := (5 * doy + 2) / 153;
    DayOfMonth(doy);
    var d := doy - (153 * mp + 2) / 5 + 1;
    var m := if mp < 10 then mp + 3 else mp - 9;
    Civil(if m <= 2 then y + 1 else y, m, d)
  }

  function YearOfEra(doe: int): int {
    (doe - doe / 1460 + doe / 36524 - doe / 146096) / 365
  }

  // ------------------------------------------------------------------ years that start in March

  /** Days before the March year `y`. */
  function YearStart(y: int): int {
    365 * y + y / 4 - y / 100 + y / 400
  }

  /** The March year `y` ends with the February of `y + 1`. */
  function YearLength(y: int): nat {
    if IsLeap(y + 1) then 366 else 365
  }

  lemma NextYear(y: int)
    ensures YearStart(y + 1) == YearStart(y) + YearLength(y)
  {
    Quotient(y, 4);
    Quotient(y, 100);
    Quotient(y, 400);
    assert (y + 1) % 400 == 0 ==> (y + 1) % 100 == 0;
    assert (y + 1) % 100 == 0 ==> (y + 1) % 4 == 0;
  }

  lemma Quotient(y: int, k: int)
    requires k > 1
    ensures (y + 1) / k == y / k + if (y + 1) % k == 0 then 1 else 0
  {
    var q, r := y / k, y % k;
    assert y + 1 == k * q + (r + 1);
    if r + 1 == k {
      assert y + 1 == k * (q + 1);
      Divides(y + 1, k, q + 1, 0);
    } else {
      Divides(y + 1, k, q, r + 1);
    }
  }

  lemma Divides(n: int, k: int, q: int, r: int)
    requires k > 0 && n == k * q + r && 0 <= r < k
    ensures n / k == q && n % k == r
  {
    var d := q - n / k;
    assert k * d == k * q - k * (n / k);
    if d >= 1 {
      AtLeast(k, d);
    } else if d <= -1 {
      assert k * -d == -(k * d);
      AtLeast(k, -d);
    }
  }

  lemma AtLeast(k: int, d: int)
    requires k > 0 && d >= 1
    ensures k * d >= k
  {
    assert k * d == k * (d - 1) + k;
  }

  lemma {:induction false} YearsAscend(a: int, b: int)
    requires a <= b
    ensures YearStart(a) + 365 * (b - a) <= YearStart(b)
    decreases b - a
  {
    if a < b {
      YearsAscend(a, b - 1);
      NextYear(b - 1);
    }
  }

  // ------------------------------------------------------------------ eras of 400 years

  lemma FloorByTruncation(n: int, k: int)
    requires k > 0
    ensures Truncated(if n >= 0 then n else n - (k - 1), k) == n / k
  {
    if n < 0 {
      var m := -(n - (k - 1));
      var q, r := m / k, m % k;
      assert m == k * q + r;
      assert n == k * (-q) + (k - 1 - r);
      Divides(n, k, -q, k - 1 - r);
    }
  }

  lemma EraOfDays(z: int)
    ensures var era := Truncated(if z >= 0 then z else z - 146096, 146097); 0 <= z - era * 146097 < 146097
  {
    FloorByTruncation(z, 146097);
  }

  /** A day of an era: the year within the era and the day within that March year. */
  ghost predicate Splits(doe: int, yoe: int, doy: int) {
    && 0 <= yoe < 400 && 0 <= doy < YearLength(yoe)
    && doe == 365 * yoe + yoe / 4 - yoe / 100 + doy
  }

  /** A year of an era as century, group of four and rest. */
  ghost predicate Parts(yoe: int, c: int, q: int, r: int) {
    yoe == 100 * c + 4 * q + r && 0 <= c < 4 && 0 <= q < 25 && 0 <= r < 4
  }

  lemma PartsOf(yoe: int) returns (c: int, q: int, r: int)
    requires 0 <= yoe < 400
    ensures Parts(yoe, c, q, r)
  {
    c := yoe / 100;
    q := yoe % 100 / 4;
    r := yoe % 4;
  }

  lemma PartsFacts(yoe: int, c: int, q: int, r: int)
    requires Parts(yoe, c, q, r)
    ensures yoe / 100 == c && yoe / 4 == 25 * c + q
    ensures YearLength(yoe) == 366 <==> r == 3 && (q < 24 || c == 3)
  {
    Divides(yoe, 100, c, 4 * q + r);
    Divides(yoe, 4, 25 * c + q, r);
    if r == 3 {
      Divides(yoe + 1, 4, 25 * c + q + 1, 0);
      if q == 24 {
        Divides(yoe + 1, 100, c + 1, 0);
      } else {
        Divides(yoe + 1, 100, c, 4 * q + 4);
      }
    } else {
      Divides(yoe + 1, 4, 25 * c + q, r + 1);
    }
  }

  /** The closed formula finds the year within the era. */
  lemma YearOfEraExact(doe: int, yoe: int, doy: int)
    requires Splits(doe, yoe, doy)
    ensures YearOfEra(doe) == yoe
  {
    var c, q, r := PartsOf(yoe);
    PartsFacts(yoe, c, q, r);
    hide YearLength;
    assert doe == 36524 * c + 1461 * q + 365 * r + doy;
    var last := c == 3 && q == 24 && r == 3 && doy == 365;
    var late := r == 3 && 24 * c + q + doy >= 365;
    Divides(doe, 1460, 25 * c + q + if late then 1 else 0, 24 * c + q + 365 * r + doy - if late then 1460 else 0);
    Divides(doe, 36524, c + if last then 1 else 0, 1461 * q + 365 * r + doy - if last then 36524 else 0);
    Divides(doe, 146096, if last then 1 else 0, doe - if last then 146096 else 0);
    var rest := doy - (if late then 1 else 0);
    assert doe - doe / 1460 + doe / 36524 - doe / 146096 == 365 * yoe + rest;
    Divides(365 * yoe + rest, 365, yoe, rest);
  }

  /** Every day of an era belongs to one of its years. */
  lemma SplitExists(doe: int) returns (yoe: int, doy: int)
    requires 0 <= doe < 146097
    ensures Splits(doe, yoe, doy)
  {
    var c := if doe / 36524 > 3 then 3 else doe / 36524;
    var a := doe - 36524 * c;
    var q := if a / 1461 > 24 then 24 else a / 1461;
    var b := a - 1461 * q;
    var r := if b / 365 > 3 then 3 else b / 365;
    yoe, doy := 100 * c + 4 * q + r, b - 365 * r;
    PartsFacts(yoe, c, q, r);
    hide YearLength, IsLeap;
  }

  lemma DayOfEra(doe: int)
    requires 0 <= doe < 146097
    ensures var yoe := YearOfEra(doe); Splits(doe, yoe, doe - (365 * yoe + yoe / 4 - yoe / 100))
    ensures var yoe := YearOfEra(doe); 0 <= doe - (365 * yoe + yoe / 4 - yoe / 100) < 366
  {
    var yoe, doy := SplitExists(doe);
    YearOfEraExact(doe, yoe, doy);
  }

  /** Day of a March year from its month and back. */
  lemma DayOfMonth(doy: int)
    requires 0 <= doy < 366
    ensures var mp := (5 * doy + 2) / 153; 0 <= mp < 12 && 0 <= doy - (153 * mp + 2) / 5 < MonthLength(mp)
  {
    var mp := (5 * doy + 2) / 153;
    assert 153 * mp <= 5 * doy + 2 < 153 * mp + 153;
    assert mp in {0, 1, 2, 3, 4, 5, 6, 7, 8, 9, 10, 11};
  }

  /** Lengths of the months from March on; February at its longest. */
  function MonthLength(mp: int): nat {
    if mp in {1, 3, 6, 8} then 30 else if mp == 11 then 29 else 31
  }

  // ------------------------------------------------------------------ the conversions are inverse and monotone

  function MarchYear(c: Civil): int {
    if c.month <= 2 then c.year - 1 else c.year
  }

  function MarchMonth(c: Civil): nat {
    (c.month + 9) % 12
  }

  function MonthStart(mp: nat): nat {
    (153 * mp + 2) / 5
  }

  lemma EraParts(y: int, era: int, yoe: int)
    requires y == 400 * era + yoe && 0 <= yoe < 400
    ensures y / 400 == era && y / 4 == 100 * era + yoe / 4 && y / 100 == 4 * era + yoe / 100
    ensures YearStart(y) == 146097 * era + 365 * yoe + yoe / 4 - yoe / 100 && YearLength(y) == YearLength(yoe)
  {
    Divides(y, 400, era, yoe);
    Divides(y, 4, 100 * era + yoe / 4, yoe % 4);
    Divides(y, 100, 4 * era + yoe / 100, yoe % 100);
    SameRest(y, era, yoe, 4);
    SameRest(y, era, yoe, 100);
    SameRest(y, era, yoe, 400);
  }

  lemma SameRest(y: int, era: int, yoe: int, k: int)
    requires y == 400 * era + yoe && k in {4, 100, 400}
    ensures (y + 1) % k == (yoe + 1) % k
  {
    var m := 400 / k;
    assert 400 == k * m;
    var q, r := (yoe + 1) / k, (yoe + 1) % k;
    assert y + 1 == k * (m * era + q) + r;
    Divides(y + 1, k, m * era + q, r);
  }

  /** Days before the year, before the month, and before the day. */
  lemma DaysFormula(c: Civil)
    ensures DaysFromCivil(c) == YearStart(MarchYear(c)) + MonthStart(MarchMonth(c)) + c.day - 1 - 719468
  {
    var y := MarchYear(c);
    FloorByTruncation(y, 400);
    var era := y / 400;
    EraParts(y, era, y - 400 * era);
  }

  /** A valid date lies within its March year, and its month within the months. */
  lemma WithinYear(c: Civil)
    requires Valid(c)
    ensures MarchMonth(c) < 12 && MonthStart(MarchMonth(c)) + c.day - 1 < YearLength(MarchYear(c))
    ensures MarchMonth(c) < 11 ==> MonthStart(MarchMonth(c)) + c.day <= MonthStart(MarchMonth(c) + 1)
  {
    assert c.month in {1, 2, 3, 4, 5, 6, 7, 8, 9, 10, 11, 12};
  }

  /** Every day number is a valid date that converts back to it. */
  lemma DaysRoundTrip(days: int)
    ensures Valid(CivilFromDays(days)) && DaysFromCivil(CivilFromDays(days)) == days
  {
    var era, yoe, doy := EraYearDay(days);
    hide CivilFromDays, YearOfEra, Truncated, DaysFromCivil, InMarchYear;
    var y := 400 * era + yoe;
    EraParts(y, era, yoe);
    MarchParts(y, doy);
    DaysFormula(InMarchYear(y, doy));
  }

  /** How the conversion takes a day number apart. */
  lemma EraYearDay(days: int) returns (era: int, yoe: int, doy: int)
    ensures Splits(days + 719468 - 146097 * era, yoe, doy) && 0 <= doy < 366
    ensures CivilFromDays(days) == InMarchYear(400 * era + yoe, doy)
  {
    hide YearLength, InMarchYear, YearOfEra, Truncated, InEra, Splits;
    var z := days + 719468;
    FloorByTruncation(z, 146097);
    era := z / 146097;
    yoe, doy := YearAndDay(era, z - era * 146097);
  }

  lemma YearAndDay(era: int, doe: nat) returns (yoe: int, doy: int)
    requires doe < 146097
    ensures Splits(doe, yoe, doy) && 0 <= doy < 366 && InEra(era, doe) == InMarchYear(400 * era + yoe, doy)
  {
    hide YearLength, InMarchYear, YearOfEra, Splits;
    DayOfEra(doe);
    yoe := YearOfEra(doe);
    doy := doe - (365 * yoe + yoe / 4 - yoe / 100);
  }

  lemma MarchParts(y: int, doy: int)
    requires 0 <= doy < YearLength(y)
    ensures var c := InMarchYear(y, doy); Valid(c) && MarchYear(c) == y && MonthStart(MarchMonth(c)) + c.day - 1 == doy
  {
    DayOfMonth(doy);
    var mp := (5 * doy + 2) / 153;
    assert mp in {0, 1, 2, 3, 4, 5, 6, 7, 8, 9, 10, 11};
  }

  ghost predicate Before(a: Civil, b: Civil) {
    a.year < b.year || (a.year == b.year && (a.month < b.month || (a.month == b.month && a.day < b.day)))
  }

  /** Later dates have larger day numbers. */
  lemma DaysAscend(a: Civil, b: Civil)
    requires Valid(a) && Valid(b) && Before(a, b)
    ensures DaysFromCivil(a) < DaysFromCivil(b)
  {
    DaysFormula(a);
    DaysFormula(b);
    WithinYear(a);
    WithinYear(b);
    var ya, yb := MarchYear(a), MarchYear(b);
    if ya < yb {
      NextYear(ya);
      YearsAscend(ya + 1, yb);
    } else {
      SameYear(a, b);
    }
  }

  lemma SameYear(a: Civil, b: Civil)
    requires Valid(a) && Valid(b) && Before(a, b) && MarchYear(a) >= MarchYear(b)
    ensures MarchYear(a) == MarchYear(b) && MonthStart(MarchMonth(a)) + a.day < MonthStart(MarchMonth(b)) + b.day
  {
    WithinYear(a);
    assert MarchMonth(a) < MarchMonth(b) || (MarchMonth(a) == MarchMonth(b) && a.day < b.day);
    if MarchMonth(a) < MarchMonth(b) {
      assert MonthStart(MarchMonth(a) + 1) <= MonthStart(MarchMonth(b));
    }
  }

  lemma CivilRoundTrip(c: Civil)
    requires Valid(c)
    ensures CivilFromDays(DaysFromCivil(c)) == c
  {
    var days := DaysFromCivil(c);
    DaysRoundTrip(days);
    var d := CivilFromDays(days);
    if Before(c, d) {
      DaysAscend(c, d);
    } else if Before(d, c) {
      DaysAscend(d, c);
    }
  }

  // ------------------------------------------------------------------ the text form

  predicate IsDigit(c: char) {
    '0' <= c <= '9'
  }

  function DigitOf(n: nat): char
    requires n < 10
  {
    '0' + n as char
  }

  function ValueOf(c: char): nat
    requires IsDigit(c)
  {
    (c - '0') as nat
  }

  function Decimal(n: nat): string {
    if n < 10 then [DigitOf(n)] else Decimal(n / 10) + [DigitOf(n % 10)]
  }

  function Zeros(n: int): string {
    if n <= 0 then "" else "0" + Zeros(n - 1)
  }

  /** Zero-padded to `width`, the sign counted. */
  function Padded(n: int, width: nat): string {
    if n >= 0 then Zeros(width - |Decimal(n)|) + Decimal(n)
    else "-" + Zeros(width - 1 - |Decimal(-n)|) + Decimal(-n)
  }

  function FormatDate(days: int): string {
    var c := CivilFromDays(days);
    Padded(c.year, 4) + "-" + Padded(c.month, 2) + "-" + Padded(c.day, 2)
  }

  function Number(s: string): nat
    requires forall i :: 0 <= i < |s| ==> IsDigit(s[i])
  {
    if s == "" then 0 else 10 * Number(s[..|s| - 1]) + ValueOf(s[|s| - 1])
  }

  /** Ten characters, digits but for the two dashes. */
  predicate Shaped(s: string) {
    |s| == 10 && s[4] == '-' && s[7] == '-' && forall i :: 0 <= i < 10 && i != 4 && i != 7 ==> IsDigit(s[i])
  }

  function DateIn(s: string): Civil
    requires Shaped(s)
  {
    Civil(Number(s[0..4]), Number(s[5..7]), Number(s[8..10]))
  }

  function ParseDate(s: string): Option<int> {
    if Shaped(s) && Valid(DateIn(s)) then Some(DaysFromCivil(DateIn(s))) else None
  }

  lemma TwoDigits(n: nat)
    requires n < 100
    ensures Padded(n, 2) == [DigitOf(n / 10), DigitOf(n % 10)]
  {
    assert n >= 10 ==> Decimal(n) == Decimal(n / 10) + [DigitOf(n % 10)];
    assert Zeros(1) == "0" + Zeros(0);
  }

  lemma FourDigits(n: nat)
    requires n < 10000
    ensures Padded(n, 4) == [DigitOf(n / 1000), DigitOf(n / 100 % 10), DigitOf(n / 10 % 10), DigitOf(n % 10)]
  {
    var a, b := n / 10, n / 100;
    assert n >= 10 ==> Decimal(n) == Decimal(a) + [DigitOf(n % 10)];
    assert a >= 10 ==> Decimal(a) == Decimal(b) + [DigitOf(a % 10)];
    assert b >= 10 ==> Decimal(b) == Decimal(n / 1000) + [DigitOf(b % 10)];
    assert Zeros(1) == "0" && Zeros(2) == "00" && Zeros(3) == "000";
  }

  lemma NumberOfTwo(s: string)
    requires |s| == 2 && IsDigit(s[0]) && IsDigit(s[1])
    ensures Number(s) == 10 * ValueOf(s[0]) + ValueOf(s[1])
  {
    assert s[..1][..0] == "";
    assert Number(s[..1]) == 10 * Number("") + ValueOf(s[0]);
  }

  lemma NumberOfFour(s: string)
    requires |s| == 4 && forall i :: 0 <= i < 4 ==> IsDigit(s[i])
    ensures Number(s) == 1000 * ValueOf(s[0]) + 100 * ValueOf(s[1]) + 10 * ValueOf(s[2]) + ValueOf(s[3])
  {
    var t := s[..3];
    assert t[..2] == s[..2] && s[..2][..1] == s[..1] && s[..1][..0] == "";
    assert Number(s) == 10 * Number(t) + ValueOf(s[3]);
    assert Number(t) == 10 * Number(s[..2]) + ValueOf(s[2]);
    assert Number(s[..2]) == 10 * Number(s[..1]) + ValueOf(s[1]);
    assert Number(s[..1]) == 10 * Number("") + ValueOf(s[0]);
  }

  lemma DigitBack(n: nat)
    requires n < 10
    ensures IsDigit(DigitOf(n)) && ValueOf(DigitOf(n)) == n
  {
  }

  lemma DigitForth(c: char)
    requires IsDigit(c)
    ensures ValueOf(c) < 10 && DigitOf(ValueOf(c)) == c
  {
  }

  lemma FourBack(n: nat)
    requires n < 10000
    ensures |Padded(n, 4)| == 4 && (forall i :: 0 <= i < 4 ==> IsDigit(Padded(n, 4)[i])) && Number(Padded(n, 4)) == n
  {
    FourDigits(n);
    hide Padded, Number, IsDigit, DigitOf, ValueOf;
    DigitBack(n / 1000);
    DigitBack(n / 100 % 10);
    DigitBack(n / 10 % 10);
    DigitBack(n % 10);
    NumberOfFour(Padded(n, 4));
    DecimalDigits(n / 1000, n / 100 % 10, n / 10 % 10, n % 10, n);
  }

  /** Four digits and the number they make. */
  lemma DecimalDigits(a: int, b: int, c: int, d: int, n: int)
    requires 0 <= a < 10 && 0 <= b < 10 && 0 <= c < 10 && 0 <= d < 10 && 0 <= n < 10000
    ensures n == 1000 * a + 100 * b + 10 * c + d <==>
            a == n / 1000 && b == n / 100 % 10 && c == n / 10 % 10 && d == n % 10
  {
    var t, h := n / 10, n / 100;
    Divides(n, 100, t / 10, 10 * (t % 10) + n % 10);
    Divides(n, 1000, h / 10, 100 * (h % 10) + 10 * (t % 10) + n % 10);
    if n == 1000 * a + 100 * b + 10 * c + d {
      Divides(n, 10, 100 * a + 10 * b + c, d);
      Divides(n, 100, 10 * a + b, 10 * c + d);
      Divides(n, 1000, a, 100 * b + 10 * c + d);
      Divides(10 * a + b, 10, a, b);
      Divides(100 * a + 10 * b + c, 10, 10 * a + b, c);
    }
  }

  lemma TwoBack(n: nat)
    requires n < 100
    ensures |Padded(n, 2)| == 2 && (forall i :: 0 <= i < 2 ==> IsDigit(Padded(n, 2)[i])) && Number(Padded(n, 2)) == n
  {
    TwoDigits(n);
    hide Padded, Number, IsDigit, DigitOf, ValueOf;
    DigitBack(n / 10);
    DigitBack(n % 10);
    NumberOfTwo(Padded(n, 2));
  }

  lemma FourForth(s: string)
    requires |s| == 4 && forall i :: 0 <= i < 4 ==> IsDigit(s[i])
    ensures Number(s) < 10000 && Padded(Number(s), 4) == s
  {
    hide Padded, Number, IsDigit, DigitOf, ValueOf;
    NumberOfFour(s);
    DigitForth(s[0]);
    DigitForth(s[1]);
    DigitForth(s[2]);
    DigitForth(s[3]);
    FourDigits(Number(s));
    DecimalDigits(ValueOf(s[0]), ValueOf(s[1]), ValueOf(s[2]), ValueOf(s[3]), Number(s));
  }

  lemma TwoForth(s: string)
    requires |s| == 2 && forall i :: 0 <= i < 2 ==> IsDigit(s[i])
    ensures Number(s) < 100 && Padded(Number(s), 2) == s
  {
    hide Padded, Number, IsDigit, DigitOf, ValueOf;
    NumberOfTwo(s);
    DigitForth(s[0]);
    DigitForth(s[1]);
    TwoDigits(Number(s));
  }

  lemma TextIsReadBack(days: int)
    requires 0 <= CivilFromDays(days).year <= 9999
    ensures ParseDate(FormatDate(days)) == Some(days)
  {
    hide DaysFromCivil, CivilFromDays, Padded, Number, IsDigit;
    var c := CivilFromDays(days);
    DaysRoundTrip(days);
    assert c.month < 100 && c.day < 100;
    hide Valid;
    FourBack(c.year);
    TwoBack(c.month);
    TwoBack(c.day);
    var s := FormatDate(days);
    assert s[0..4] == Padded(c.year, 4) && s[5..7] == Padded(c.month, 2) && s[8..10] == Padded(c.day, 2);
    assert forall i :: 0 <= i < 4 ==> s[i] == s[0..4][i];
    assert forall i :: 0 <= i < 2 ==> s[5 + i] == s[5..7][i] && s[8 + i] == s[8..10][i];
    assert Shaped(s) by {
      assert IsDigit(s[5]) && IsDigit(s[6]) && IsDigit(s[8]) && IsDigit(s[9]);
    }
  }

  /** Four digits of the year, two of the month, two of the day, with dashes between. */
  lemma TextPlaces(days: int)
    requires 0 <= CivilFromDays(days).year <= 9999
    ensures var s, c := FormatDate(days), CivilFromDays(days);
            && |s| == 10 && s[4] == '-' && s[7] == '-'
            && s[0] as int == 48 + c.year / 1000 && s[1] as int == 48 + c.year / 100 % 10
            && s[2] as int == 48 + c.year / 10 % 10 && s[3] as int == 48 + c.year % 10
            && s[5] as int == 48 + c.month / 10 && s[6] as int == 48 + c.month % 10
            && s[8] as int == 48 + c.day / 10 && s[9] as int == 48 + c.day % 10
  {
    hide DaysFromCivil, CivilFromDays, Padded;
    var c := CivilFromDays(days);
    DaysRoundTrip(days);
    assert c.month < 100 && c.day < 100;
    FourDigits(c.year);
    TwoDigits(c.month);
    TwoDigits(c.day);
  }

  /** A text is a date exactly when its digits, read as year, month and day in this order, are one. */
  lemma TextIsRead(s: string)
    ensures ParseDate(s).Some? <==>
            Shaped(s) && Valid(Civil(1000 * Digit(s, 0) + 100 * Digit(s, 1) + 10 * Digit(s, 2) + Digit(s, 3),
                                     10 * Digit(s, 5) + Digit(s, 6), 10 * Digit(s, 8) + Digit(s, 9)))
    ensures ParseDate(s).Some? ==>
              CivilFromDays(ParseDate(s).value) ==
              Civil(1000 * Digit(s, 0) + 100 * Digit(s, 1) + 10 * Digit(s, 2) + Digit(s, 3),
                    10 * Digit(s, 5) + Digit(s, 6), 10 * Digit(s, 8) + Digit(s, 9))
  {
    hide CivilFromDays, DaysFromCivil, Number, Valid;
    if Shaped(s) {
      NumberOfFour(s[0..4]);
      NumberOfTwo(s[5..7]);
      NumberOfTwo(s[8..10]);
      if Valid(DateIn(s)) {
        CivilRoundTrip(DateIn(s));
      }
    }
  }

  function Digit(s: string, i: nat): int {
    if i < |s| then s[i] as int - 48 else 0
  }

  /** Day 0 is the first of January 1970. */
  lemma Epoch()
    ensures DaysFromCivil(Civil(1970, 1, 1)) == 0 && CivilFromDays(0) == Civil(1970, 1, 1)
  {
    hide CivilFromDays;
    assert Truncated(1969, 400) == 4;
    CivilRoundTrip(Civil(1970, 1, 1));
  }

  /** A day is read back from its text exactly when its year has four digits. */
  lemma TextRoundTrip(days: int)
    ensures ParseDate(FormatDate(days)) == Some(days) <==> 0 <= CivilFromDays(days).year <= 9999
  {
    hide DaysFromCivil, CivilFromDays, Valid, Padded, Number, IsDigit;
    if 0 <= CivilFromDays(days).year <= 9999 {
      TextIsReadBack(days);
    } else if ParseDate(FormatDate(days)) == Some(days) {
      var s := FormatDate(days);
      CivilRoundTrip(DateIn(s));
      FourForth(s[0..4]);
    }
  }

  /** Every text that parses is the text of the day it denotes. */
  lemma ParsedIsFormatted(s: string)
    requires ParseDate(s).Some?
    ensures FormatDate(ParseDate(s).value) == s
  {
    hide CivilFromDays, DaysFromCivil, Valid, Padded, Number, IsDigit;
    var c := DateIn(s);
    CivilRoundTrip(c);
    FourForth(s[0..4]);
    TwoForth(s[5..7]);
    TwoForth(s[8..10]);
    assert s == s[0..4] + "-" + s[5..7] + "-" + s[8..10];
  }
}

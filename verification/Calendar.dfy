// Civil dates from Unix time, and the timestamps the directory prints.
module Calendar {
  import opened Text

  datatype Date = Date(y: int, m: int, d: int)

  // Gregorian date of a day count from 1970-01-01, over years that begin in March.
  function DaysToYmd(n: nat): Date {
    var days := n + 719468;
    var era := days / 146097;
    var doe := days % 146097;
    var yoe := YearOfEra(doe);
    var doy := doe - DaysBeforeInEra(yoe);
    FromMarch(yoe + era * 400, doy)
  }

  function YearOfEra(doe: int): int {
    (doe - doe / 1460 + doe / 36524 - doe / 146096) / 365
  }

  function DaysBeforeInEra(yoe: int): int {
    365 * yoe + yoe / 4 - yoe / 100
  }

  // The date `doy` days into the year that began on the 1st of March of year `y`.
  function FromMarch(y: int, doy: int): Date {
    var mp := (5 * doy + 2) / 153;
    var d := doy - (153 * mp + 2) / 5 + 1;
    var m := if mp < 10 then mp + 3 else mp - 9;
    Date(if m <= 2 then y + 1 else y, m, d)
  }

  // ---- The Gregorian calendar ----

  predicate Leap(y: int) {
    y % 4 == 0 && (y % 100 != 0 || y % 400 == 0)
  }

  function DaysInMonth(y: int, m: int): int {
    if m == 2 then if Leap(y) then 29 else 28
    else if m == 4 || m == 6 || m == 9 || m == 11 then 30
    else 31
  }

  predicate Valid(t: Date) {
    1 <= t.m <= 12 && 1 <= t.d <= DaysInMonth(t.y, t.m)
  }

  function DayAfter(t: Date): Date {
    if t.d < DaysInMonth(t.y, t.m) then Date(t.y, t.m, t.d + 1)
    else if t.m < 12 then Date(t.y, t.m + 1, 1)
    else Date(t.y + 1, 1, 1)
  }

  // ---- Years ----

  // Days before the 1st of March of year `y`, counted from the 1st of March of year 0.
  function DaysBefore(y: nat): int {
    365 * y + y / 4 - y / 100 + y / 400
  }

  function MarchYearLength(y: nat): int {
    if Leap(y + 1) then 366 else 365
  }

  // Counting the multiples of k up to the next number.
  lemma NextQuotient(y: nat, k: nat)
    requires k == 4 || k == 100 || k == 400
    ensures (y + 1) / k == y / k + if (y + 1) % k == 0 then 1 else 0
  {
  }

  lemma MultipleOf400(m: int)
    ensures (400 * m) % 100 == 0
  {
    Shift100(0, 4 * m);
  }

  lemma MultipleOf100(m: int)
    ensures (100 * m) % 4 == 0
  {
    Shift4(0, 25 * m);
  }

  lemma MultiplesNest(y: nat)
    ensures y % 400 == 0 ==> y % 100 == 0
    ensures y % 100 == 0 ==> y % 4 == 0
  {
    MultipleOf400(y / 400);
    MultipleOf100(y / 100);
  }

  lemma MarchYears(y: nat)
    ensures DaysBefore(y + 1) == DaysBefore(y) + MarchYearLength(y)
  {
    NextQuotient(y, 4);
    NextQuotient(y, 100);
    NextQuotient(y, 400);
    MultiplesNest(y + 1);
  }

  lemma {:induction false} DaysBeforeGrows(y: nat, z: nat)
    requires y < z
    ensures DaysBefore(y) + MarchYearLength(y) <= DaysBefore(z)
  {
    MarchYears(z - 1);
    if y < z - 1 {
      DaysBeforeGrows(y, z - 1);
    }
  }

  // A day of the 400-year era, split into centuries, four-year spans, years and days.
  ghost predicate Split(doe: int, c: int, v: int, w: int, d: int) {
    && doe == 36524 * c + 1461 * v + 365 * w + d
    && 0 <= c <= 3 && 0 <= v <= 24 && 0 <= w <= 3
    && 0 <= d <= 365 && (d == 365 ==> w == 3 && (v < 24 || c == 3))
  }

  lemma SplitExists(doe: nat) returns (c: int, v: int, w: int, d: int)
    requires doe < 146097
    ensures Split(doe, c, v, w, d)
  {
    c := if doe / 36524 <= 3 then doe / 36524 else 3;
    var r := doe - 36524 * c;
    assert 0 <= r <= 36524 && (c < 3 ==> r < 36524);
    v := r / 1461;
    var t := r - 1461 * v;
    w := if t / 365 <= 3 then t / 365 else 3;
    d := t - 365 * w;
  }

  // The division that the algorithm uses finds the year of the era.
  lemma YearOfEraIsExact(doe: int, c: int, v: int, w: int, d: int)
    requires Split(doe, c, v, w, d)
    ensures YearOfEra(doe) == 100 * c + 4 * v + w
  {
    var low := 24 * c + v + 365 * w + d;
    assert doe == 1460 * (25 * c + v) + low && 0 <= low < 2920;
    assert doe / 1460 == 25 * c + v + low / 1460;
    assert low / 1460 == if low >= 1460 then 1 else 0;
    var y := 100 * c + 4 * v + w;
    if doe == 146096 {
      assert c == 3 && v == 24 && w == 3 && d == 365;
    } else {
      assert 1461 * v + 365 * w + d < 36524;
      assert doe / 36524 == c && doe / 146096 == 0;
      assert doe - doe / 1460 + doe / 36524 == 365 * y + d - low / 1460;
      assert d - low / 1460 >= 0;
      assert d - low / 1460 < 365;
    }
  }

  lemma DaysBeforeSplit(c: int, v: int, w: int)
    requires 0 <= c <= 3 && 0 <= v <= 24 && 0 <= w <= 3
    ensures DaysBeforeInEra(100 * c + 4 * v + w) == 36524 * c + 1461 * v + 365 * w
  {
    var y := 100 * c + 4 * v + w;
    assert y / 4 == 25 * c + v;
    assert y / 100 == c;
  }

  lemma Shift4(y: int, m: int)
    ensures (y + 4 * m) / 4 == y / 4 + m && (y + 4 * m) % 4 == y % 4
  {
  }

  lemma Shift100(y: int, m: int)
    ensures (y + 100 * m) / 100 == y / 100 + m && (y + 100 * m) % 100 == y % 100
  {
  }

  lemma Shift400(y: int, m: int)
    ensures (y + 400 * m) / 400 == y / 400 + m && (y + 400 * m) % 400 == y % 400
  {
  }

  lemma LeapShift(y: int, era: int)
    ensures Leap(y + 400 * era) == Leap(y)
  {
    Shift4(y, 100 * era);
    Shift100(y, 4 * era);
    Shift400(y, era);
  }

  lemma EraShift(era: nat, y: nat)
    requires y < 400
    ensures DaysBefore(y + era * 400) == 146097 * era + DaysBeforeInEra(y)
    ensures MarchYearLength(y + era * 400) == MarchYearLength(y)
  {
    Shift4(y, 100 * era);
    Shift100(y, 4 * era);
    Shift400(y, era);
    LeapShift(y + 1, era);
  }

  lemma DayOfEraYear(c: int, v: int, w: int, d: int)
    requires Split(36524 * c + 1461 * v + 365 * w + d, c, v, w, d)
    ensures d < MarchYearLength(100 * c + 4 * v + w)
  {
    if d == 365 {
      var z := 100 * c + 4 * v + 4;
      assert z % 4 == 0;
      assert z % 100 == (4 * v + 4) % 100;
      assert c == 3 && v == 24 ==> z == 400;
    }
  }

  lemma DayOfEra(doe: nat) returns (yoe: nat, doy: nat)
    requires doe < 146097
    ensures yoe == YearOfEra(doe) < 400 && doe == DaysBeforeInEra(yoe) + doy && doy < MarchYearLength(yoe)
  {
    var c, v, w, d := SplitExists(doe);
    YearOfEraIsExact(doe, c, v, w, d);
    DaysBeforeSplit(c, v, w);
    DayOfEraYear(c, v, w, d);
    yoe, doy := 100 * c + 4 * v + w, d;
  }

  lemma DayOfYear(era: nat, doe: nat) returns (y: nat, doy: nat)
    requires doe < 146097
    ensures 146097 * era + doe == DaysBefore(y) + doy && doy < MarchYearLength(y)
    ensures y == YearOfEra(doe) + era * 400 && doy == doe - DaysBeforeInEra(YearOfEra(doe))
  {
    var yoe;
    yoe, doy := DayOfEra(doe);
    EraShift(era, yoe);
    y := yoe + era * 400;
  }

  // Every day count has one year and one day in it.
  lemma YearAndDay(n: nat) returns (y: nat, doy: nat)
    ensures n + 719468 == DaysBefore(y) + doy && doy < MarchYearLength(y)
    ensures DaysToYmd(n) == FromMarch(y, doy)
  {
    var days := n + 719468;
    y, doy := DayOfYear(days / 146097, days % 146097);
  }

  lemma YearAndDayUnique(y: nat, doy: nat, z: nat, doz: nat)
    requires doy < MarchYearLength(y) && doz < MarchYearLength(z)
    requires DaysBefore(y) + doy == DaysBefore(z) + doz
    ensures y == z && doy == doz
  {
    if y < z {
      DaysBeforeGrows(y, z);
    } else if z < y {
      DaysBeforeGrows(z, y);
    }
  }

  // ---- Months ----

  function MonthStart(mp: int): int {
    (153 * mp + 2) / 5
  }

  lemma MonthOfDay(doy: nat)
    requires doy < 366
    ensures var mp := (5 * doy + 2) / 153; 0 <= mp < 12 && MonthStart(mp) <= doy < MonthStart(mp + 1)
  {
  }

  lemma MonthLengths(y: nat, mp: nat)
    requires mp < 12
    ensures var m := if mp < 10 then mp + 3 else mp - 9;
            MonthStart(mp) + DaysInMonth(if m <= 2 then y + 1 else y, m)
              == if mp < 11 then MonthStart(mp + 1) else MarchYearLength(y)
  {
  }

  lemma MonthIsUnique(doy: nat, mp: nat)
    requires mp < 12 && MonthStart(mp) <= doy < MonthStart(mp + 1)
    ensures (5 * doy + 2) / 153 == mp
  {
  }

  lemma NextDayInYear(y: nat, doy: nat)
    requires doy < MarchYearLength(y)
    ensures Valid(FromMarch(y, doy))
    ensures DayAfter(FromMarch(y, doy))
      == if doy + 1 < MarchYearLength(y) then FromMarch(y, doy + 1) else FromMarch(y + 1, 0)
  {
    var mp := (5 * doy + 2) / 153;
    MonthOfDay(doy);
    MonthLengths(y, mp);
    if doy + 1 < MarchYearLength(y) {
      MonthOfDay(doy + 1);
      if doy + 1 < MonthStart(mp + 1) {
        MonthIsUnique(doy + 1, mp);
      } else {
        MonthStep(mp);
        MonthIsUnique(doy + 1, mp + 1);
      }
    }
  }

  lemma MonthStep(mp: nat)
    requires mp < 12
    ensures MonthStart(mp) < MonthStart(mp + 1)
  {
  }

  // ---- The date function counts the calendar ----

  // The date of a day whose place in its year is known.
  lemma DateAt(n: nat, y: nat, doy: nat)
    requires n + 719468 == DaysBefore(y) + doy && doy < MarchYearLength(y)
    ensures DaysToYmd(n) == FromMarch(y, doy)
  {
    var z, doz := YearAndDay(n);
    YearAndDayUnique(y, doy, z, doz);
  }

  lemma DayZero()
    ensures DaysToYmd(0) == Date(1970, 1, 1)
  {
    DateAt(0, 1969, 306);
  }

  lemma DatesAreValid(n: nat)
    ensures Valid(DaysToYmd(n))
  {
    var y, doy := YearAndDay(n);
    NextDayInYear(y, doy);
  }

  // What `DaysToYmd` is of the day after.
  lemma NextYearAndDay(y: nat, doy: nat, z: nat, doz: nat)
    requires doy < MarchYearLength(y) && doz < MarchYearLength(z)
    requires DaysBefore(z) + doz == DaysBefore(y) + doy + 1
    ensures if doy + 1 < MarchYearLength(y) then z == y && doz == doy + 1 else z == y + 1 && doz == 0
  {
    MarchYears(y);
    if doy + 1 < MarchYearLength(y) {
      YearAndDayUnique(y, doy + 1, z, doz);
    } else {
      YearAndDayUnique(y + 1, 0, z, doz);
    }
  }

  lemma NextMarchDay(y: nat, doy: nat, z: nat, doz: nat)
    requires doy < MarchYearLength(y) && doz < MarchYearLength(z)
    requires DaysBefore(z) + doz == DaysBefore(y) + doy + 1
    ensures FromMarch(z, doz) == DayAfter(FromMarch(y, doy))
  {
    NextYearAndDay(y, doy, z, doz);
    NextDayInYear(y, doy);
  }

  lemma DatesFollow(n: nat)
    ensures DaysToYmd(n + 1) == DayAfter(DaysToYmd(n))
  {
    var y, doy := YearAndDay(n);
    var z, doz := YearAndDay(n + 1);
    NextMarchDay(y, doy, z, doz);
  }

  predicate Earlier(s: Date, t: Date) {
    s.y < t.y || (s.y == t.y && (s.m < t.m || (s.m == t.m && s.d < t.d)))
  }

  lemma EarlierThanNext(s: Date, t: Date)
    requires Valid(t) && (s == t || Earlier(s, t))
    ensures Earlier(s, DayAfter(t))
  {
  }

  // Any succession of days grows.
  lemma {:induction false} SuccessionGrows(date: nat -> Date, a: nat, b: nat)
    requires a < b && forall n: nat :: Valid(date(n)) && date(n + 1) == DayAfter(date(n))
    ensures Earlier(date(a), date(b))
  {
    if a < b - 1 {
      SuccessionGrows(date, a, b - 1);
    }
    EarlierThanNext(date(a), date(b - 1));
    assert date((b - 1) + 1) == DayAfter(date(b - 1));
  }

  lemma DatesGrow(a: nat, b: nat)
    requires a < b
    ensures Earlier(DaysToYmd(a), DaysToYmd(b))
  {
    forall n: nat
      ensures Valid(DaysToYmd(n)) && DaysToYmd(n + 1) == DayAfter(DaysToYmd(n))
    {
      DatesAreValid(n);
      DatesFollow(n);
    }
    SuccessionGrows(DaysToYmd, a, b);
  }
}

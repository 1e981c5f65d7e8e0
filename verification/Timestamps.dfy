// The timestamps the directory prints: "1970-01-01T00:00:00Z".
module Timestamps {
  import opened Text
  import opened Calendar

  const TWO_64: int := 0x1_0000_0000_0000_0000

  // The last millisecond of the year 9999.
  const LAST_MS: int := 253_402_300_799_999

  // Whole seconds, truncated towards zero and cast to `u64`.
  function SecondsOf(ms: int): (s: nat)
    requires InI64(ms)
    ensures 0 <= ms ==> s == ms / 1000
    ensures ms <= -1000 ==> s >= TWO_64 / 2
  {
    if ms >= 0 then ms / 1000
    else if ms > -1000 then 0
    else TWO_64 - (-ms) / 1000
  }

  // A zero-padded number, what follows it and the rest.
  function Field(v: nat, width: nat, sep: string, rest: string): string {
    Padded(v, width) + (sep + rest)
  }

  function Clock(h: nat, mi: nat, se: nat): string {
    Field(h, 2, ":", Field(mi, 2, ":", Field(se, 2, "Z", "")))
  }

  function TimeOfDay(t: nat): string {
    Clock(t / 3600, t % 3600 / 60, t % 60)
  }

  function DateAndTime(date: Date, t: nat): string
    requires date.y >= 0 && Valid(date)
  {
    Field(date.y, 4, "-", Field(date.m, 2, "-", Field(date.d, 2, "T", TimeOfDay(t))))
  }

  lemma YearIsNatural(n: nat)
    ensures DaysToYmd(n).y >= 1970
  {
    DayZero();
    if n > 0 {
      DatesGrow(0, n);
    }
  }

  function OfSeconds(s: nat): string {
    YearIsNatural(s / 86400);
    DatesAreValid(s / 86400);
    DateAndTime(DaysToYmd(s / 86400), s % 86400)
  }

  function MsToIso8601(ms: int): string
    requires InI64(ms)
  {
    OfSeconds(SecondsOf(ms))
  }

  // ---- Strings sort like times ----

  lemma FieldsCompare(v: nat, w: nat, width: nat, sep: string, x: string, y: string)
    requires 1 <= width && v < Pow10(width) && w < Pow10(width)
    ensures Less(Field(v, width, sep, x), Field(w, width, sep, y)) <==> v < w || (v == w && Less(x, y))
    ensures Field(v, width, sep, x) == Field(w, width, sep, y) <==> v == w && x == y
  {
    var p, q := Padded(v, width), Padded(w, width);
    PaddedSpec(v, width);
    PaddedSpec(w, width);
    DigitStringsCompare(p, q);
    LessOfFixedWidth(p, q, sep + x, sep + y);
    LessOfFixedWidth(sep, sep, x, y);
    LessTrichotomy(sep, sep);
    CutFields(p, q, sep, x, y);
  }

  lemma CutFields(p: string, q: string, sep: string, x: string, y: string)
    requires |p| == |q|
    ensures p + (sep + x) == q + (sep + y) <==> p == q && x == y
  {
    var s, t := p + (sep + x), q + (sep + y);
    assert s[..|p|] == p && t[..|q|] == q;
    assert s[|p| + |sep|..] == x && t[|q| + |sep|..] == y;
  }

  lemma ClocksCompare(h: nat, mi: nat, se: nat, h': nat, mi': nat, se': nat)
    requires h < 100 && mi < 100 && se < 100 && h' < 100 && mi' < 100 && se' < 100
    ensures Less(Clock(h, mi, se), Clock(h', mi', se'))
      <==> h < h' || (h == h' && (mi < mi' || (mi == mi' && se < se')))
    ensures Clock(h, mi, se) == Clock(h', mi', se') <==> h == h' && mi == mi' && se == se'
  {
    var s, s' := Field(se, 2, "Z", ""), Field(se', 2, "Z", "");
    assert Pow10(2) == 100;
    FieldsCompare(se, se', 2, "Z", "", "");
    FieldsCompare(mi, mi', 2, ":", s, s');
    FieldsCompare(h, h', 2, ":", Field(mi, 2, ":", s), Field(mi', 2, ":", s'));
  }

  lemma TimesCompare(t: nat, u: nat)
    requires t < 86400 && u < 86400
    ensures Less(TimeOfDay(t), TimeOfDay(u)) <==> t < u
    ensures TimeOfDay(t) == TimeOfDay(u) <==> t == u
  {
    TimeParts(t);
    TimeParts(u);
    ClocksCompare(t / 3600, t % 3600 / 60, t % 60, u / 3600, u % 3600 / 60, u % 60);
    TimeSplit(t, u);
  }

  lemma TimeSplit(t: nat, u: nat)
    ensures t < u
      <==> t / 3600 < u / 3600
           || (t / 3600 == u / 3600
               && (t % 3600 / 60 < u % 3600 / 60 || (t % 3600 / 60 == u % 3600 / 60 && t % 60 < u % 60)))
  {
    TimeParts(t);
    TimeParts(u);
  }

  lemma TimeParts(t: nat)
    ensures t == 3600 * (t / 3600) + 60 * (t % 3600 / 60) + t % 60
    ensures 0 <= t % 3600 / 60 < 60 && 0 <= t % 60 < 60
  {
  }

  lemma DatesAndTimesCompare(a: Date, b: Date, t: nat, u: nat)
    requires Valid(a) && Valid(b) && 0 <= a.y < 10000 && 0 <= b.y < 10000 && t < 86400 && u < 86400
    ensures Less(DateAndTime(a, t), DateAndTime(b, u)) <==> Earlier(a, b) || (a == b && t < u)
    ensures DateAndTime(a, t) == DateAndTime(b, u) <==> a == b && t == u
  {
    var da, db := Field(a.d, 2, "T", TimeOfDay(t)), Field(b.d, 2, "T", TimeOfDay(u));
    var ma, mb := Field(a.m, 2, "-", da), Field(b.m, 2, "-", db);
    assert Pow10(2) == 100 && Pow10(4) == 10000;
    TimesCompare(t, u);
    FieldsCompare(a.d, b.d, 2, "T", TimeOfDay(t), TimeOfDay(u));
    FieldsCompare(a.m, b.m, 2, "-", da, db);
    FieldsCompare(a.y, b.y, 4, "-", ma, mb);
  }

  // Four-digit years are those up to day 2932896, the last of the year 9999.
  lemma FourDigitYears(n: nat)
    ensures DaysToYmd(n).y < 10000 <==> n <= 2_932_896
  {
    Year9999Ends();
    Year10000Begins();
    if n < 2_932_896 {
      DatesGrow(n, 2_932_896);
    } else if n > 2_932_897 {
      DatesGrow(2_932_897, n);
    }
  }

  lemma Year9999Ends()
    ensures DaysToYmd(2_932_896) == Date(9999, 12, 31)
  {
    DateAt(2_932_896, 9999, 305);
  }

  lemma Year10000Begins()
    ensures DaysToYmd(2_932_897) == Date(10000, 1, 1)
  {
    DateAt(2_932_897, 9999, 306);
  }

  lemma DaysCompare(m: nat, n: nat)
    ensures Earlier(DaysToYmd(m), DaysToYmd(n)) <==> m < n
    ensures DaysToYmd(m) == DaysToYmd(n) <==> m == n
  {
    if m < n {
      DatesGrow(m, n);
    } else if n < m {
      DatesGrow(n, m);
    }
  }

  lemma SecondsCompare(s: nat, r: nat)
    requires s / 86400 <= 2_932_896 && r / 86400 <= 2_932_896
    ensures Less(OfSeconds(s), OfSeconds(r)) <==> s < r
    ensures OfSeconds(s) == OfSeconds(r) <==> s == r
  {
    var m, n := s / 86400, r / 86400;
    DatesAreValid(m);
    DatesAreValid(n);
    YearIsNatural(m);
    YearIsNatural(n);
    FourDigitYears(m);
    FourDigitYears(n);
    DaysCompare(m, n);
    DatesAndTimesCompare(DaysToYmd(m), DaysToYmd(n), s % 86400, r % 86400);
  }

  // From the epoch through the year 9999, timestamps sort like their times, to the second.
  lemma TimestampsSort(a: int, b: int)
    requires 0 <= a <= LAST_MS && 0 <= b <= LAST_MS
    ensures Less(MsToIso8601(a), MsToIso8601(b)) <==> a / 1000 < b / 1000
    ensures MsToIso8601(a) == MsToIso8601(b) <==> a / 1000 == b / 1000
  {
    SecondsCompare(a / 1000, b / 1000);
  }

  // ---- Reading the fields back ----

  // The number a text has between two positions.
  ghost function Read(s: string, from: nat, to: nat): int
    requires from <= to <= |s|
  {
    ValueOf(s[from..to])
  }

  lemma FieldReads(v: nat, width: nat, sep: string, rest: string)
    requires 1 <= width && v < Pow10(width) && |sep| == 1
    ensures var s := Field(v, width, sep, rest);
            && |s| == width + 1 + |rest| && Read(s, 0, width) == v
            && s[width..width + 1] == sep && s[width + 1..] == rest
  {
    PaddedSpec(v, width);
    ThreeParts(Padded(v, width), sep, rest);
  }

  lemma ThreeParts(p: string, q: string, r: string)
    ensures var s := p + (q + r);
            s[0..|p|] == p && s[|p|..|p| + |q|] == q && s[|p| + |q|..] == r
  {
  }

  lemma ReadBehind(s: string, k: nat, t: string, from: nat, to: nat)
    requires k <= |s| && s[k..] == t && from <= to <= |t|
    ensures Read(s, k + from, k + to) == Read(t, from, to) && s[k + from..k + to] == t[from..to]
  {
    forall i | from <= i < to
      ensures s[k + i] == t[i]
    {
      assert s[k..][i] == s[k + i];
    }
    assert s[k + from..k + to] == t[from..to];
  }

  lemma ClockReads(h: nat, mi: nat, se: nat)
    requires h < 100 && mi < 100 && se < 100
    ensures var s := Clock(h, mi, se);
            && |s| == 9 && Read(s, 0, 2) == h && Read(s, 3, 5) == mi && Read(s, 6, 8) == se
            && s[2..3] == ":" && s[5..6] == ":" && s[8..] == "Z"
  {
    var s1 := Field(se, 2, "Z", "");
    var s2 := Field(mi, 2, ":", s1);
    var s3 := Field(h, 2, ":", s2);
    assert Pow10(2) == 100;
    FieldReads(se, 2, "Z", "");
    FieldReads(mi, 2, ":", s1);
    FieldReads(h, 2, ":", s2);
    ReadBehind(s2, 3, s1, 0, 2);
    ReadBehind(s3, 3, s2, 0, 2);
    ReadBehind(s3, 3, s2, 3, 5);
    assert s2[5..] == s1[2..] && s3[8..] == s2[5..];
  }

  lemma DateReads(date: Date, t: nat)
    requires Valid(date) && 0 <= date.y < 10000 && t < 86400
    ensures var s := DateAndTime(date, t);
            && |s| == 20 && Read(s, 0, 4) == date.y && Read(s, 5, 7) == date.m && Read(s, 8, 10) == date.d
            && s[4..5] == "-" && s[7..8] == "-" && s[10..11] == "T" && s[11..] == TimeOfDay(t)
  {
    var time := TimeOfDay(t);
    var s1 := Field(date.d, 2, "T", time);
    var s2 := Field(date.m, 2, "-", s1);
    var s3 := Field(date.y, 4, "-", s2);
    assert Pow10(2) == 100 && Pow10(4) == 10000;
    TimeWidth(t);
    FieldReads(date.d, 2, "T", time);
    FieldReads(date.m, 2, "-", s1);
    FieldReads(date.y, 4, "-", s2);
    ReadBehind(s2, 3, s1, 0, 2);
    ReadBehind(s2, 3, s1, 2, 3);
    ReadBehind(s3, 5, s2, 0, 2);
    ReadBehind(s3, 5, s2, 2, 3);
    ReadBehind(s3, 5, s2, 3, 5);
    ReadBehind(s3, 5, s2, 5, 6);
    assert s2[6..] == s1[3..] && s3[11..] == s2[6..];
  }

  // The fields and the marks of a timestamp.
  ghost predicate Prints(s: string, date: Date, h: int, mi: int, se: int) {
    && |s| == 20 && Date(Read(s, 0, 4), Read(s, 5, 7), Read(s, 8, 10)) == date
    && Read(s, 11, 13) == h && Read(s, 14, 16) == mi && Read(s, 17, 19) == se
    && s[4..5] == "-" && s[7..8] == "-" && s[10..11] == "T" && s[13..14] == ":" && s[16..17] == ":" && s[19..] == "Z"
  }

  lemma DateAndTimePrints(date: Date, t: nat)
    requires Valid(date) && 0 <= date.y < 10000 && t < 86400
    ensures Prints(DateAndTime(date, t), date, t / 3600, t % 3600 / 60, t % 60)
  {
    DateReads(date, t);
    ClockReads(t / 3600, t % 3600 / 60, t % 60);
    var s, c := DateAndTime(date, t), TimeOfDay(t);
    ReadBehind(s, 11, c, 0, 2);
    ReadBehind(s, 11, c, 2, 3);
    ReadBehind(s, 11, c, 3, 5);
    ReadBehind(s, 11, c, 5, 6);
    ReadBehind(s, 11, c, 6, 8);
    assert s[19..] == c[8..];
  }

  // What is printed is the time: the calendar date of its day, and hours, minutes and
  // seconds that add up to the seconds of the day.
  lemma TimestampsReadBack(ms: int) returns (day: nat, h: nat, mi: nat, se: nat)
    requires 0 <= ms <= LAST_MS
    ensures Prints(MsToIso8601(ms), DaysToYmd(day), h, mi, se)
    ensures h < 24 && mi < 60 && se < 60 && 86400 * day + 3600 * h + 60 * mi + se == ms / 1000
  {
    day := ms / 1000 / 86400;
    var t := ms / 1000 % 86400;
    h, mi, se := t / 3600, t % 3600 / 60, t % 60;
    DatesAreValid(day);
    YearIsNatural(day);
    FourDigitYears(day);
    DateAndTimePrints(DaysToYmd(day), t);
    TimeParts(t);
    OfSecondsAt(ms / 1000, day, t);
  }

  // ---- The width is right exactly there ----

  lemma {:induction false} DigitsLong(n: nat, k: nat)
    requires n >= Pow10(k)
    ensures |Digits(n)| > k
  {
    if k > 0 {
      DigitsLong(n / 10, k - 1);
    }
  }

  lemma PaddedWidth(n: nat, w: nat)
    requires 1 <= w
    ensures |Padded(n, w)| == w <==> n < Pow10(w)
    ensures |Padded(n, w)| >= w
  {
    if n < Pow10(w) {
      PaddedSpec(n, w);
    } else {
      DigitsLong(n, w);
    }
  }

  lemma TimeWidth(t: nat)
    requires t < 86400
    ensures |TimeOfDay(t)| == 9
  {
    assert Pow10(2) == 100;
    PaddedWidth(t / 3600, 2);
    PaddedWidth(t % 3600 / 60, 2);
    PaddedWidth(t % 60, 2);
  }

  lemma SecondsWidth(s: nat)
    ensures |OfSeconds(s)| == 20 <==> s / 86400 <= 2_932_896
  {
    var n := s / 86400;
    var date := DaysToYmd(n);
    DatesAreValid(n);
    YearIsNatural(n);
    FourDigitYears(n);
    assert Pow10(2) == 100 && Pow10(4) == 10000;
    TimeWidth(s % 86400);
    PaddedWidth(date.d, 2);
    PaddedWidth(date.m, 2);
    PaddedWidth(date.y, 4);
  }

  // The fixed form of RFC 3339, section 5.6: from just before the epoch, whose fraction of
  // a second is dropped, to the end of the year 9999; earlier times wrap to huge years.
  lemma FixedWidthExactly(ms: int)
    requires InI64(ms)
    ensures |MsToIso8601(ms)| == 20 <==> -1000 < ms <= LAST_MS
  {
    SecondsWidth(SecondsOf(ms));
  }

  lemma FirstDigits()
    ensures Padded(9999, 4)[0] == '9' && Padded(10000, 4)[0] == '1'
  {
    assert Digits(9)[0] == '9' && Digits(99)[0] == '9' && Digits(999)[0] == '9';
    assert Digits(1)[0] == '1' && Digits(10)[0] == '1' && Digits(100)[0] == '1' && Digits(1000)[0] == '1';
    PaddedWidth(9999, 4);
    PaddedWidth(10000, 4);
    assert Pow10(4) == 10000;
  }

  lemma FirstOfField(v: nat, width: nat, sep: string, rest: string)
    requires Padded(v, width) != ""
    ensures Field(v, width, sep, rest)[0] == Padded(v, width)[0]
  {
  }

  lemma YearTenThousandFirst(x: string, y: string, a: Date, b: Date, t: nat, u: nat)
    requires Valid(a) && Valid(b) && a.y == 10000 && b.y == 9999
    requires x == DateAndTime(a, t) && y == DateAndTime(b, u)
    ensures Less(x, y)
  {
    FirstDigits();
    FirstOfField(a.y, 4, "-", Field(a.m, 2, "-", Field(a.d, 2, "T", TimeOfDay(t))));
    FirstOfField(b.y, 4, "-", Field(b.m, 2, "-", Field(b.d, 2, "T", TimeOfDay(u))));
  }

  lemma OfSecondsAt(s: nat, day: nat, t: nat)
    requires s == 86400 * day + t && t < 86400
    ensures DaysToYmd(day).y >= 0 && Valid(DaysToYmd(day)) && OfSeconds(s) == DateAndTime(DaysToYmd(day), t)
  {
    YearIsNatural(day);
    DatesAreValid(day);
    assert s / 86400 == day && s % 86400 == t;
  }

  lemma NewYearFirst(s: nat, r: nat, m: nat, n: nat)
    requires DaysToYmd(m).y == 10000 && DaysToYmd(n).y == 9999
    requires 86400 * m <= s < 86400 * (m + 1) && 86400 * n <= r < 86400 * (n + 1)
    ensures Less(OfSeconds(s), OfSeconds(r))
  {
    OfSecondsAt(s, m, s - 86400 * m);
    OfSecondsAt(r, n, r - 86400 * n);
    YearTenThousandFirst(OfSeconds(s), OfSeconds(r), DaysToYmd(m), DaysToYmd(n), s - 86400 * m, r - 86400 * n);
  }

  // Past that the order is lost: any time on the first day of the year 10000 sorts before
  // any on the last day of 9999.
  lemma OrderEndsWithTheYear9999(a: int, b: int)
    requires LAST_MS < a <= LAST_MS + 86_400_000 && LAST_MS - 86_400_000 < b <= LAST_MS
    ensures Less(MsToIso8601(a), MsToIso8601(b))
  {
    Year9999Ends();
    Year10000Begins();
    NewYearFirst(a / 1000, b / 1000, 2_932_897, 2_932_896);
  }
}

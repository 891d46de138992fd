/** Names of versioned evidence in evals/artifacts.py: `<stem>.<stamp>.<invocation id><suffix>`,
    whose stamp sorts as text the way the instants sort. */
module ArtifactNames {
  import opened Wrappers
  import opened Texts

  // ----- Instants -----

  /** An aware datetime, by its UTC fields. */
  datatype Utc = Utc(year: int, month: int, day: int, hour: int, minute: int, second: int)
  {
    predicate Valid() {
      && 1 <= year <= 9999 && 1 <= month <= 12 && 1 <= day <= DaysIn(year, month)
      && 0 <= hour < 24 && 0 <= minute < 60 && 0 <= second < 60
    }
  }

  datatype When = Naive | Aware(utc: Utc)
  {
    predicate Valid() {
      Aware? ==> utc.Valid()
    }
  }

  predicate IsLeap(year: int) {
    year % 4 == 0 && (year % 100 != 0 || year % 400 == 0)
  }

  function DaysIn(year: int, month: int): int {
    if month == 2 then (if IsLeap(year) then 29 else 28)
    else if month in {4, 6, 9, 11} then 30
    else 31
  }

  function DaysBeforeYear(year: int): int
    requires year >= 1
  {
    if year == 1 then 0 else DaysBeforeYear(year - 1) + if IsLeap(year - 1) then 366 else 365
  }

  function DaysBeforeMonth(year: int, month: int): int
    requires month >= 1
  {
    if month == 1 then 0 else DaysBeforeMonth(year, month - 1) + DaysIn(year, month - 1)
  }

  /** Whole seconds since the first instant of year 1, on the proleptic Gregorian calendar. */
  function Seconds(t: Utc): int
    requires t.Valid()
  {
    (((DaysBeforeYear(t.year) + DaysBeforeMonth(t.year, t.month) + t.day - 1) * 24 + t.hour) * 60 + t.minute) * 60
      + t.second
  }

  /** Field by field, the largest unit first. */
  predicate Before(a: Utc, b: Utc) {
    if a.year != b.year then a.year < b.year
    else if a.month != b.month then a.month < b.month
    else if a.day != b.day then a.day < b.day
    else if a.hour != b.hour then a.hour < b.hour
    else if a.minute != b.minute then a.minute < b.minute
    else a.second < b.second
  }

  lemma {:induction false} MonthsAdd(year: int, from: int, to: int)
    requires 1 <= from < to
    ensures DaysBeforeMonth(year, from) + DaysIn(year, from) <= DaysBeforeMonth(year, to)
  {
    if from < to - 1 {
      MonthsAdd(year, from, to - 1);
    }
  }

  lemma YearIsItsMonths(year: int)
    ensures DaysBeforeMonth(year, 12) + 31 == if IsLeap(year) then 366 else 365
  {
    assert DaysBeforeMonth(year, 2) == 31;
    assert DaysBeforeMonth(year, 3) == 31 + DaysIn(year, 2);
    assert DaysBeforeMonth(year, 5) == DaysBeforeMonth(year, 3) + 61;
    assert DaysBeforeMonth(year, 7) == DaysBeforeMonth(year, 5) + 61;
    assert DaysBeforeMonth(year, 9) == DaysBeforeMonth(year, 7) + 62;
    assert DaysBeforeMonth(year, 10) == DaysBeforeMonth(year, 9) + 30;
    assert DaysBeforeMonth(year, 12) == DaysBeforeMonth(year, 10) + 61;
  }

  /** A day of the year lies within it. */
  lemma DayFits(t: Utc)
    requires t.Valid()
    ensures 0 <= DaysBeforeMonth(t.year, t.month)
    ensures DaysBeforeMonth(t.year, t.month) + t.day <= if IsLeap(t.year) then 366 else 365
  {
    YearIsItsMonths(t.year);
    if t.month > 1 { MonthsAdd(t.year, 1, t.month); }
    if t.month < 12 { MonthsAdd(t.year, t.month, 12); }
  }

  lemma {:induction false} YearsAdd(from: int, to: int)
    requires 1 <= from < to
    ensures DaysBeforeYear(from) + (if IsLeap(from) then 366 else 365) <= DaysBeforeYear(to)
  {
    if from < to - 1 {
      YearsAdd(from, to - 1);
    }
  }

  function DayNumber(t: Utc): int
    requires t.Valid()
  {
    DaysBeforeYear(t.year) + DaysBeforeMonth(t.year, t.month) + t.day - 1
  }

  lemma DaysFollowFields(a: Utc, b: Utc)
    requires a.Valid() && b.Valid() && Before(a, b)
    ensures DayNumber(a) <= DayNumber(b)
    ensures (a.year, a.month, a.day) != (b.year, b.month, b.day) ==> DayNumber(a) < DayNumber(b)
  {
    DayFits(a);
    DayFits(b);
    if a.year < b.year {
      YearsAdd(a.year, b.year);
    } else if a.month < b.month {
      MonthsAdd(a.year, a.month, b.month);
    }
  }

  lemma SecondsFollowFields(a: Utc, b: Utc)
    requires a.Valid() && b.Valid()
    ensures Before(a, b) <==> Seconds(a) < Seconds(b)
    ensures a == b <==> Seconds(a) == Seconds(b)
  {
    if Before(a, b) {
      DaysFollowFields(a, b);
    } else if Before(b, a) {
      DaysFollowFields(b, a);
    } else {
      assert a == b;
    }
  }

  // ----- Stamps -----

  predicate IsDigit(c: char) {
    '0' <= c <= '9'
  }

  predicate AllDigits(s: string) {
    forall c <- s :: IsDigit(c)
  }

  function Power(width: nat): nat {
    if width == 0 then 1 else 10 * Power(width - 1)
  }

  function Digits(n: nat, width: nat): (s: string)
    ensures |s| == width && AllDigits(s)
  {
    if width == 0 then "" else Digits(n / 10, width - 1) + [('0' as int + n % 10) as char]
  }

  /** `%Y` as glibc renders it: no padding. */
  function YearText(year: int): string
    requires 1 <= year <= 9999
  {
    Digits(year, if year >= 1000 then 4 else if year >= 100 then 3 else if year >= 10 then 2 else 1)
  }

  function TimeText(t: Utc): string
    requires t.Valid()
  {
    "T" + (Digits(t.hour, 2) + (Digits(t.minute, 2) + (Digits(t.second, 2) + "Z")))
  }

  function StampText(t: Utc): string
    requires t.Valid()
  {
    YearText(t.year) + (Digits(t.month, 2) + (Digits(t.day, 2) + TimeText(t)))
  }

  lemma {:induction false} LessLeft(a: string, x: string, b: string, y: string)
    requires |a| == |b| && Less(a, b)
    ensures Less(a + x, b + y)
  {
    assert a != [];
    assert (a + x)[0] == a[0] && (b + y)[0] == b[0];
    assert (a + x)[1..] == a[1..] + x && (b + y)[1..] == b[1..] + y;
    if a[0] == b[0] {
      assert a == [a[0]] + a[1..] && b == [b[0]] + b[1..];
      LessLeft(a[1..], x, b[1..], y);
      assert a[1..] + x != b[1..] + y;
    }
  }

  lemma {:induction false} LessRight(a: string, x: string, y: string)
    requires Less(x, y)
    ensures Less(a + x, a + y)
  {
    if a == [] {
      assert a + x == x && a + y == y;
    } else {
      LessRight(a[1..], x, y);
      assert (a + x)[1..] == a[1..] + x && (a + y)[1..] == a[1..] + y;
    }
  }

  lemma {:induction false} DigitsFollow(n: nat, m: nat, width: nat)
    requires n < m < Power(width)
    ensures Less(Digits(n, width), Digits(m, width))
  {
    var x, y := [('0' as int + n % 10) as char], [('0' as int + m % 10) as char];
    if n / 10 < m / 10 {
      DigitsFollow(n / 10, m / 10, width - 1);
      LessLeft(Digits(n / 10, width - 1), x, Digits(m / 10, width - 1), y);
    } else {
      assert x[0] < y[0];
      LessRight(Digits(n / 10, width - 1), x, y);
    }
  }

  lemma TimeFollows(a: Utc, b: Utc)
    requires a.Valid() && b.Valid() && Before(a, b)
    requires (a.year, a.month, a.day) == (b.year, b.month, b.day)
    ensures Less(TimeText(a), TimeText(b))
  {
    assert Power(1) == 10 && Power(2) == 100;
    var restA, restB := Digits(a.second, 2) + "Z", Digits(b.second, 2) + "Z";
    if a.hour < b.hour {
      DigitsFollow(a.hour, b.hour, 2);
      LessLeft(Digits(a.hour, 2), Digits(a.minute, 2) + restA, Digits(b.hour, 2), Digits(b.minute, 2) + restB);
    } else {
      if a.minute < b.minute {
        DigitsFollow(a.minute, b.minute, 2);
        LessLeft(Digits(a.minute, 2), restA, Digits(b.minute, 2), restB);
      } else {
        DigitsFollow(a.second, b.second, 2);
        LessLeft(Digits(a.second, 2), "Z", Digits(b.second, 2), "Z");
        LessRight(Digits(a.minute, 2), restA, restB);
      }
      LessRight(Digits(a.hour, 2), Digits(a.minute, 2) + restA, Digits(b.minute, 2) + restB);
    }
    LessRight("T", Digits(a.hour, 2) + (Digits(a.minute, 2) + restA),
      Digits(b.hour, 2) + (Digits(b.minute, 2) + restB));
  }

  lemma StampFollowsFields(a: Utc, b: Utc)
    requires a.Valid() && b.Valid() && a.year >= 1000 && Before(a, b)
    ensures Less(StampText(a), StampText(b))
  {
    assert Power(1) == 10 && Power(2) == 100 && Power(3) == 1000 && Power(4) == 10000;
    var dayA, dayB := Digits(a.day, 2) + TimeText(a), Digits(b.day, 2) + TimeText(b);
    if a.year < b.year {
      DigitsFollow(a.year, b.year, 4);
      LessLeft(YearText(a.year), Digits(a.month, 2) + dayA, YearText(b.year), Digits(b.month, 2) + dayB);
    } else {
      if a.month < b.month {
        DigitsFollow(a.month, b.month, 2);
        LessLeft(Digits(a.month, 2), dayA, Digits(b.month, 2), dayB);
      } else {
        if a.day < b.day {
          DigitsFollow(a.day, b.day, 2);
          LessLeft(Digits(a.day, 2), TimeText(a), Digits(b.day, 2), TimeText(b));
        } else {
          TimeFollows(a, b);
          LessRight(Digits(a.day, 2), TimeText(a), TimeText(b));
        }
        LessRight(Digits(a.month, 2), dayA, dayB);
      }
      LessRight(YearText(a.year), Digits(a.month, 2) + dayA, Digits(b.month, 2) + dayB);
    }
  }

  /** From year 1000 on, stamps compare as text exactly as the instants compare to the second. */
  lemma TextOrderIsTimeOrder(a: Utc, b: Utc)
    requires a.Valid() && b.Valid() && a.year >= 1000 && b.year >= 1000
    ensures Less(StampText(a), StampText(b)) <==> Seconds(a) < Seconds(b)
    ensures StampText(a) == StampText(b) <==> Seconds(a) == Seconds(b)
  {
    SecondsFollowFields(a, b);
    if Before(a, b) {
      StampFollowsFields(a, b);
    } else if Before(b, a) {
      StampFollowsFields(b, a);
      if Less(StampText(a), StampText(b)) {
        Antisymmetric(StampText(a), StampText(b));
      }
    }
  }

  const YEAR_1000 := Utc(1000, 1, 1, 0, 0, 0)

  function AfterTheMonth(t: Utc): string
    requires t.Valid()
  {
    Digits(t.day, 2) + TimeText(t)
  }

  lemma StampOfYear1000()
    ensures StampText(YEAR_1000) == "100001" + AfterTheMonth(YEAR_1000)
  {
    assert Digits(1, 1) == "1" && Digits(10, 2) == "10" && Digits(100, 3) == "100" && Digits(1000, 4) == "1000";
    assert Digits(0, 1) == "0" && Digits(1, 2) == "01";
    assert YearText(1000) == "1000";
  }

  /** A power of ten in `width` digits, two zeros, and the rest of the first six digits of that stamp. */
  lemma PowerThenZeros(width: nat, rest: string)
    requires 1 <= width <= 3
    ensures "100001" + rest == Digits(Power(width - 1), width) + (Digits(0, 2) + ("100001" + rest)[width + 2..])
  {
    var s := "100001" + rest;
    ShortDigits();
    if width == 1 {
      assert s == "1" + ("00" + s[3..]);
    } else if width == 2 {
      assert s == "10" + ("00" + s[4..]);
    } else {
      assert s == "100" + ("00" + s[5..]);
    }
  }

  lemma ShortDigits()
    ensures Power(0) == 1 && Power(1) == 10 && Power(2) == 100
    ensures Digits(1, 1) == "1" && Digits(10, 2) == "10" && Digits(100, 3) == "100" && Digits(0, 2) == "00"
  {
    assert Digits(0, 1) == "0";
    assert Digits(10, 2) == Digits(1, 1) + "0" && Digits(100, 3) == Digits(10, 2) + "0";
  }

  lemma YearWidth(year: int)
    requires 1 <= year < 1000
    ensures var width := |YearText(year)|;
      1 <= width <= 3 && Power(width - 1) <= year < Power(width) && YearText(year) == Digits(year, width)
  {
    assert Power(0) == 1 && Power(1) == 10 && Power(2) == 100 && Power(3) == 1000;
  }

  /** Before year 1000 the year is at least a digit short, and the instant sorts after year 1000 begins. */
  lemma ShortYearsSortWrong(t: Utc)
    requires t.Valid() && t.year < 1000
    ensures YEAR_1000.Valid() && Seconds(t) < Seconds(YEAR_1000) && Less(StampText(YEAR_1000), StampText(t))
  {
    SecondsFollowFields(t, YEAR_1000);
    var width := |YearText(t.year)|;
    YearWidth(t.year);
    StampOfYear1000();
    PowerThenZeros(width, AfterTheMonth(YEAR_1000));
    var rest, day := ("100001" + AfterTheMonth(YEAR_1000))[width + 2..], AfterTheMonth(t);
    if Power(width - 1) < t.year {
      DigitsFollow(Power(width - 1), t.year, width);
      LessLeft(Digits(Power(width - 1), width), Digits(0, 2) + rest, YearText(t.year), Digits(t.month, 2) + day);
    } else {
      DigitsFollow(0, t.month, 2);
      LessLeft(Digits(0, 2), rest, Digits(t.month, 2), day);
      LessRight(YearText(t.year), Digits(0, 2) + rest, Digits(t.month, 2) + day);
    }
  }

  /** A stamp sorts before the stamp of every later instant exactly when its year is at least 1000. */
  lemma SortsRightFromYear1000(t: Utc)
    requires t.Valid()
    ensures (forall later: Utc ::
      later.Valid() && Seconds(t) < Seconds(later) ==> Less(StampText(t), StampText(later))) <==> t.year >= 1000
  {
    if t.year >= 1000 {
      forall later: Utc | later.Valid() && Seconds(t) < Seconds(later) ensures Less(StampText(t), StampText(later)) {
        SecondsFollowFields(t, later);
        TextOrderIsTimeOrder(t, later);
      }
    } else {
      ShortYearsSortWrong(t);
      if Less(StampText(t), StampText(YEAR_1000)) {
        Antisymmetric(StampText(t), StampText(YEAR_1000));
      }
    }
  }

  // ----- Names -----

  predicate IdChar(c: char) {
    IsDigit(c) || 'A' <= c <= 'Z' || 'a' <= c <= 'z' || c == '-' || c == '_'
  }

  predicate IsInvocation(s: string) {
    s != "" && forall c <- s :: IdChar(c)
  }

  /** Eight digits, `T`, six digits, `Z`. */
  predicate IsStamp(s: string) {
    |s| == 16 && AllDigits(s[..8]) && s[8] == 'T' && AllDigits(s[9..15]) && s[15] == 'Z'
  }

  function VersionText(stem: string, stamp: string, id: string, suffix: string): string {
    stem + "." + stamp + "." + id + suffix
  }

  datatype ParsedName = ParsedName(stem: string, stamp: string, invocationId: string)

  /** The position of the last dot, or -1. */
  function LastDot(s: string): (i: int)
    ensures -1 <= i < |s| && '.' !in s[i + 1..]
    ensures i >= 0 ==> s[i] == '.'
  {
    if s == "" then -1
    else if s[|s| - 1] == '.' then |s| - 1
    else
      var init := s[..|s| - 1];
      var i := LastDot(init);
      TailGrows(s, init, i + 1);
      i
  }

  lemma TailGrows(s: string, init: string, from: nat)
    requires s != "" && init == s[..|s| - 1] && from <= |init| && s[|s| - 1] != '.' && '.' !in init[from..]
    ensures '.' !in s[from..]
  {
    assert s[from..] == init[from..] + [s[|s| - 1]];
  }

  /** `s.rpartition(".")`, without the separator. */
  function RPartition(s: string): (parts: (string, string))
    ensures '.' !in parts.1
    ensures if '.' in s then s == parts.0 + "." + parts.1 else parts == ("", s)
  {
    var i := LastDot(s);
    if i < 0 then ("", s)
    else
      assert s == s[..i] + [s[i]] + s[i + 1..];
      (s[..i], s[i + 1..])
  }

  predicate EndsWith(s: string, suffix: string) {
    |suffix| <= |s| && s[|s| - |suffix|..] == suffix
  }

  function ParseVersionName(name: string, suffix: string): Option<ParsedName>
    requires suffix != ""
  {
    if !EndsWith(name, suffix) then None
    else
      var head, id := RPartition(name[..|name| - |suffix|]).0, RPartition(name[..|name| - |suffix|]).1;
      var stem, stamp := RPartition(head).0, RPartition(head).1;
      if stem == "" || !IsStamp(stamp) || !IsInvocation(id) then None else Some(ParsedName(stem, stamp, id))
  }

  lemma PartsAtTheLastDot(a: string, b: string)
    requires '.' !in b
    ensures RPartition(a + "." + b) == (a, b)
  {
    var s := a + "." + b;
    assert s[|a|] == '.';
    assert '.' in s;
    var i := LastDot(s);
    assert s[|a| + 1..] == b;
    assert forall j :: |a| < j < |s| ==> s[j] == b[j - |a| - 1];
    assert forall j :: i < j < |s| ==> s[j] == s[i + 1..][j - i - 1];
    assert i == |a| && s[..i] == a && s[i + 1..] == b;
  }

  lemma NoDots(stamp: string, id: string)
    requires IsStamp(stamp) && IsInvocation(id)
    ensures '.' !in stamp && '.' !in id
  {
    forall i | 0 <= i < |stamp| ensures stamp[i] != '.' {
      if i < 8 { assert IsDigit(stamp[..8][i]); }
      else if 8 < i < 15 { assert IsDigit(stamp[9..15][i - 9]); }
    }
  }

  /** Parsing succeeds on exactly the names of that shape, and takes them apart as they were put together;
      a stem may hold dots of its own. */
  lemma ParseIsTheInverse(name: string, suffix: string, parsed: ParsedName)
    requires suffix != ""
    ensures ParseVersionName(name, suffix) == Some(parsed) <==>
      && parsed.stem != "" && IsStamp(parsed.stamp) && IsInvocation(parsed.invocationId)
      && name == VersionText(parsed.stem, parsed.stamp, parsed.invocationId, suffix)
  {
    if parsed.stem != "" && IsStamp(parsed.stamp) && IsInvocation(parsed.invocationId)
      && name == VersionText(parsed.stem, parsed.stamp, parsed.invocationId, suffix) {
      var head := parsed.stem + "." + parsed.stamp;
      var base := head + "." + parsed.invocationId;
      assert name == base + suffix && name[..|name| - |suffix|] == base;
      NoDots(parsed.stamp, parsed.invocationId);
      PartsAtTheLastDot(head, parsed.invocationId);
      PartsAtTheLastDot(parsed.stem, parsed.stamp);
    }
    if ParseVersionName(name, suffix) == Some(parsed) {
      var base := name[..|name| - |suffix|];
      var head := RPartition(base).0;
      assert '.' in head && '.' in base;
      assert name == base + name[|name| - |suffix|..];
      assert base == parsed.stem + "." + parsed.stamp + "." + parsed.invocationId;
      assert name == VersionText(parsed.stem, parsed.stamp, parsed.invocationId, suffix);
    }
  }

  lemma StampShape(t: Utc)
    requires t.Valid()
    ensures IsStamp(StampText(t)) <==> t.year >= 1000
  {
    var s := StampText(t);
    if t.year >= 1000 {
      var day := YearText(t.year) + Digits(t.month, 2) + Digits(t.day, 2);
      var time := Digits(t.hour, 2) + Digits(t.minute, 2) + Digits(t.second, 2);
      assert s == day + "T" + time + "Z";
      assert s[..8] == day && s[9..15] == time;
    }
  }

  /** What a version name was made from can be read back off it, from year 1000 on and not before. */
  lemma NamesReadBack(stem: string, t: Utc, id: string, suffix: string)
    requires stem != "" && t.Valid() && IsInvocation(id) && suffix != ""
    ensures ParseVersionName(VersionText(stem, StampText(t), id, suffix), suffix)
      == Some(ParsedName(stem, StampText(t), id))
      <==> t.year >= 1000
  {
    StampShape(t);
    ParseIsTheInverse(VersionText(stem, StampText(t), id, suffix), suffix, ParsedName(stem, StampText(t), id));
  }
}

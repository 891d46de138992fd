/** The calendar behind the stamps: leap years in closed form, and the instants a datetime can hold. */
module Calendar {
  import opened ArtifactNames
  import opened Rebase

  lemma OneMoreMultiple(n: int)
    requires n >= 1
    ensures n / 4 == (n - 1) / 4 + if n % 4 == 0 then 1 else 0
    ensures n / 100 == (n - 1) / 100 + if n % 100 == 0 then 1 else 0
    ensures n / 400 == (n - 1) / 400 + if n % 400 == 0 then 1 else 0
  {
  }

  /** Every fourth year is a leap year, but for the hundredth ones that are not four-hundredth. */
  lemma {:induction false} DaysInClosedForm(year: int)
    requires year >= 1
    ensures DaysBeforeYear(year) == 365 * (year - 1) + (year - 1) / 4 - (year - 1) / 100 + (year - 1) / 400
  {
    if year > 1 {
      DaysInClosedForm(year - 1);
      OneMoreMultiple(year - 1);
      LeapByMultiples(year - 1);
    }
  }

  lemma LeapByMultiples(n: int)
    requires n >= 1
    ensures (if IsLeap(n) then 1 else 0) ==
      (if n % 4 == 0 then 1 else 0) - (if n % 100 == 0 then 1 else 0) + if n % 400 == 0 then 1 else 0
  {
  }

  const EPOCH := Utc(1970, 1, 1, 0, 0, 0)
  const FIRST_SECOND := Utc(1, 1, 1, 0, 0, 0)
  const LAST_SECOND := Utc(9999, 12, 31, 23, 59, 59)

  /** Microseconds since 1970 began, which is how a stamp's instant is counted. */
  function Microseconds(t: Utc): int
    requires t.Valid()
  {
    (Seconds(t) - Seconds(EPOCH)) * 1000000
  }

  /** A shifted clock is on the calendar exactly from the first microsecond of year 1 to the last of year 9999. */
  lemma RangeIsTheCalendar(at: int)
    ensures FIRST_SECOND.Valid() && LAST_SECOND.Valid() && EPOCH.Valid()
    ensures InRange(at) <==> Microseconds(FIRST_SECOND) <= at <= Microseconds(LAST_SECOND) + 999999
  {
    DaysInClosedForm(1970);
    DaysInClosedForm(9999);
    YearIsItsMonths(9999);
    assert DaysBeforeYear(1970) == 719162 && DaysBeforeYear(9999) == 3651694;
    assert Seconds(EPOCH) == 719162 * 86400;
    assert Seconds(LAST_SECOND) == (3651694 + 365) * 86400 - 1;
  }
}

/**
 * What the identity-card birth-date check needs from the JavaScript `Date` object.
 *
 * `new Date(y, m0, d)` interprets `y` through the two-digit-year rule of ECMA-262
 * (section 21.4.2.1: a year 0..99 means 1900 + y) and then normalises out-of-range
 * months and days into the proleptic Gregorian calendar (February 30 becomes March 1
 * or 2). Reading the object back with `getFullYear`, `getMonth` and `getDate` gives
 * the arguments again exactly when no normalisation happened and the year was not
 * rewritten; that condition is what `RoundTrips` states.
 */
module JsDate {
  import opened Wrappers

  /** The year the Date constructor stores for a year argument. */
  function ConstructorYear(y: int): (r: int)
    ensures r == y <==> y < 0 || y > 99
  {
    if 0 <= y <= 99 then 1900 + y else y
  }

  predicate IsLeapYear(y: int) {
    y % 4 == 0 && (y % 100 != 0 || y % 400 == 0)
  }

  function DaysInMonth(y: int, m: int): (n: int)
    requires 1 <= m <= 12
    ensures 28 <= n <= 31
    ensures n == 29 <==> m == 2 && IsLeapYear(y)
  {
    if m == 2 then (if IsLeapYear(y) then 29 else 28)
    else if m == 4 || m == 6 || m == 9 || m == 11 then 30
    else 31
  }

  /** A year, a month 1..12 and a day that exists in that month. */
  predicate IsCalendarDate(y: int, m: int, d: int) {
    1 <= m <= 12 && 1 <= d <= DaysInMonth(y, m)
  }

  /** `new Date(year, month - 1, day)` reads back as `year`, `month - 1` and `day`.
      A `NaN` argument (`None`) makes an invalid date, whose fields are `NaN` and
      equal nothing. */
  predicate RoundTrips(year: Option<int>, month: Option<int>, day: Option<int>) {
    && year.Some? && month.Some? && day.Some?
    && ConstructorYear(year.value) == year.value
    && IsCalendarDate(ConstructorYear(year.value), month.value, day.value)
  }

  /** A date read back unchanged has a year outside 0..99 and is a calendar date. */
  lemma RoundTripMeaning(y: int, m: int, d: int)
    ensures RoundTrips(Some(y), Some(m), Some(d)) <==> (y < 0 || y > 99) && IsCalendarDate(y, m, d)
  {
  }
}

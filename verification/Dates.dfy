/** Calendar dates as they are written, `YYYY-MM-DD`: the order of the strings is that of the days. */
module Dates {
  import opened Strings

  predicate Digit(c: char) {
    '0' <= c <= '9'
  }

  function DigitOf(c: char): (n: nat)
    requires Digit(c)
    ensures n < 10
  {
    c as int - '0' as int
  }

  /** The pattern of an ISO date. */
  predicate IsoDate(s: string) {
    && |s| == 10 && s[4] == '-' && s[7] == '-'
    && forall i :: 0 <= i < 10 && i != 4 && i != 7 ==> Digit(s[i])
  }

  function Year(s: string): nat
    requires IsoDate(s)
  {
    1000 * DigitOf(s[0]) + 100 * DigitOf(s[1]) + 10 * DigitOf(s[2]) + DigitOf(s[3])
  }

  function Month(s: string): nat
    requires IsoDate(s)
  {
    10 * DigitOf(s[5]) + DigitOf(s[6])
  }

  function Day(s: string): nat
    requires IsoDate(s)
  {
    10 * DigitOf(s[8]) + DigitOf(s[9])
  }

  predicate Leap(y: nat) {
    y % 4 == 0 && (y % 100 != 0 || y % 400 == 0)
  }

  function DaysIn(y: nat, m: nat): nat {
    if m == 2 then (if Leap(y) then 29 else 28) else if m in [4, 6, 9, 11] then 30 else 31
  }

  predicate ValidDate(s: string) {
    IsoDate(s) && Year(s) >= 1 && 1 <= Month(s) <= 12 && 1 <= Day(s) <= DaysIn(Year(s), Month(s))
  }

  /** The days of the years before this one. */
  function DaysBeforeYear(y: nat): nat {
    if y <= 1 then 0 else DaysBeforeYear(y - 1) + if Leap(y - 1) then 366 else 365
  }

  /** The days of the months of this year before this one. */
  function DaysBeforeMonth(y: nat, m: nat): nat {
    if m <= 1 then 0 else DaysBeforeMonth(y, m - 1) + DaysIn(y, m - 1)
  }

  /** The number of a day, counted from the first of January of the year one. */
  function Ordinal(s: string): nat
    requires ValidDate(s)
  {
    DaysBeforeYear(Year(s)) + DaysBeforeMonth(Year(s), Month(s)) + Day(s)
  }

  lemma {:induction false} YearsGrow(y: nat, z: nat)
    requires 1 <= y < z
    ensures DaysBeforeYear(z) >= DaysBeforeYear(y) + if Leap(y) then 366 else 365
    decreases z
  {
    if y < z - 1 { YearsGrow(y, z - 1); }
  }

  lemma {:induction false} MonthsGrow(y: nat, m: nat, n: nat)
    requires 1 <= m < n
    ensures DaysBeforeMonth(y, n) >= DaysBeforeMonth(y, m) + DaysIn(y, m)
    decreases n
  {
    if m < n - 1 { MonthsGrow(y, m, n - 1); }
  }

  lemma YearLength(y: nat)
    ensures DaysBeforeMonth(y, 12) + 31 == if Leap(y) then 366 else 365
  {
    var m := 1;
    while m < 12
      invariant 1 <= m <= 12
      invariant DaysBeforeMonth(y, m) == [0, 0, 31, 59, 90, 120, 151, 181, 212, 243, 273, 304, 334][m]
                  + if m > 2 && Leap(y) then 1 else 0
    {
      m := m + 1;
    }
  }

  lemma WithinYear(y: nat, m: nat, d: nat)
    requires 1 <= m <= 12 && 1 <= d <= DaysIn(y, m)
    ensures 1 <= DaysBeforeMonth(y, m) + d <= if Leap(y) then 366 else 365
  {
    YearLength(y);
    if m < 12 { MonthsGrow(y, m, 12); }
  }

  /** A date that is less by year, month and day has the smaller number. */
  lemma LessHasSmallerNumber(a: string, b: string)
    requires ValidDate(a) && ValidDate(b)
    requires || Year(a) < Year(b)
             || (Year(a) == Year(b) && (Month(a) < Month(b) || (Month(a) == Month(b) && Day(a) < Day(b))))
    ensures Ordinal(a) < Ordinal(b)
  {
    if Year(a) < Year(b) {
      YearsGrow(Year(a), Year(b));
      WithinYear(Year(a), Month(a), Day(a));
      WithinYear(Year(b), Month(b), Day(b));
    } else if Month(a) < Month(b) {
      MonthsGrow(Year(a), Month(a), Month(b));
    }
  }

  /** The first character that differs decides. */
  lemma {:induction false} BeforeAt(a: string, b: string, k: nat)
    requires k < |a| && k < |b| && a[..k] == b[..k] && a[k] != b[k]
    ensures Before(a, b) <==> a[k] < b[k]
    decreases k
  {
    if k > 0 {
      assert a[0] == a[..k][0] && b[0] == b[..k][0];
      assert a[1..][..k - 1] == a[..k][1..] && b[1..][..k - 1] == b[..k][1..];
      BeforeAt(a[1..], b[1..], k - 1);
    }
  }

  lemma FirstDifference(a: string, b: string) returns (k: nat)
    requires |a| == |b| && a != b
    ensures k < |a| && a[..k] == b[..k] && a[k] != b[k]
  {
    k := 0;
    while a[k] == b[k]
      invariant k < |a| && a[..k] == b[..k] && a[k..] != b[k..]
      decreases |a| - k
    {
      assert a[k..] == [a[k]] + a[k + 1..] && b[k..] == [b[k]] + b[k + 1..];
      assert a[..k + 1] == a[..k] + [a[k]] && b[..k + 1] == b[..k] + [b[k]];
      k := k + 1;
    }
  }

  lemma DigitDecides(a: string, b: string, k: nat)
    requires ValidDate(a) && ValidDate(b) && k < 10 && a[..k] == b[..k] && a[k] < b[k]
    ensures Ordinal(a) < Ordinal(b)
  {
    assert forall i :: 0 <= i < k ==> a[i] == a[..k][i] && b[i] == b[..k][i];
    assert k != 4 && k != 7;
    assert k >= 4 ==> Year(a) == Year(b);
    assert k >= 7 ==> Month(a) == Month(b);
    LessHasSmallerNumber(a, b);
  }

  /** Sorting dates as strings sorts them by the calendar. */
  lemma StringOrderIsCalendarOrder(a: string, b: string)
    requires ValidDate(a) && ValidDate(b)
    ensures Before(a, b) <==> Ordinal(a) < Ordinal(b)
    ensures a == b <==> Ordinal(a) == Ordinal(b)
  {
    if a == b {
      BeforeIsIrreflexive(a);
    } else {
      var k := FirstDifference(a, b);
      BeforeAt(a, b, k);
      if a[k] < b[k] { DigitDecides(a, b, k); } else { DigitDecides(b, a, k); }
    }
  }
}

/**
 Julian day numbers for Gregorian dates.
 */
module Dates {
  import opened Arithmetic

  datatype Date = Date(year: int, month: int, day: int)

  predicate Leap(y: int)
  {
    y % 4 == 0 && (y % 100 != 0 || y % 400 == 0)
  }

  function DaysInMonth(y: int, m: int): (n: int)
  {
    if m == 2 then (if Leap(y) then 29 else 28) else if m == 4 || m == 6 || m == 9 || m == 11 then 30 else 31
  }

  predicate IsDate(x: Date)
  {
    x.year >= 0 && 1 <= x.month <= 12 && 1 <= x.day <= DaysInMonth(x.year, x.month)
  }

  // ----- the code -----

  function BuildDate(x: Date): (julian: int)
  {
    var month := if x.month > 2 then x.month + 1 else x.month + 13;
    var year := if x.month > 2 then x.year + 4800 else x.year + 4799;
    var century := year / 100;
    year * 365 - 32167 + (year / 4 - century + century / 4) + (7834 * month / 256 + x.day)
  }

  function SplitDate(jd: int): (x: Date)
  {
    var julian := jd + 32044;
    var quad := julian / 146097;
    var extra := (julian - quad * 146097) * 4 + 3;
    SplitCycles(julian + (60 + quad * 3 + extra / 146097))
  }

  /** The part of `SplitDate` after the centuries are accounted for. */
  function SplitCycles(julian: int): (x: Date)
  {
    var quad := julian / 1461;
    var j3 := julian - quad * 1461;
    var y := j3 * 4 / 1461;
    SplitDay(y + quad * 4 - 4800, (if y != 0 then (j3 + 305) % 365 else (j3 + 306) % 366) + 123)
  }

  function SplitDay(year: int, julian: int): (x: Date)
  {
    var quad := julian * 2141 / 65536;
    Date(year, (quad + 10) % 12 + 1, julian - 7834 * quad / 256)
  }

  // ----- years that start in March -----

  /** The year, counted from March, in which the date lies. */
  function MarchYear(x: Date): (y: int)
  {
    if x.month > 2 then x.year + 4800 else x.year + 4799
  }

  function MarchMonth(x: Date): (m: int)
  {
    if x.month > 2 then x.month + 1 else x.month + 13
  }

  /** Days since 1 March. */
  function DayOfYear(x: Date): (t: int)
  {
    7834 * MarchMonth(x) / 256 + x.day - 123
  }

  /** Days before a March year. */
  function DaysBefore(y: int): (n: int)
  {
    y * 365 + (y / 4 - y / 100 + y / 100 / 4)
  }

  function YearLength(y: int): (n: int)
  {
    if Leap(y + 1) then 366 else 365
  }

  lemma BuildIsSum(x: Date)
    ensures BuildDate(x) == DaysBefore(MarchYear(x)) + DayOfYear(x) - 32044
  {
  }

  /** The days of a year are numbered without gaps, month by month. */
  lemma DayOfYearRange(x: Date)
    requires IsDate(x)
    ensures 0 <= DayOfYear(x) < YearLength(MarchYear(x))
    ensures DayOfYear(x) >= 306 <==> x.month <= 2
  {
    var m := MarchMonth(x);
    MonthStarts();
    LeapShift(x.year);
  }

  lemma MonthStarts()
    ensures 7834 * 4 / 256 == 122 && 7834 * 5 / 256 == 153 && 7834 * 6 / 256 == 183 && 7834 * 7 / 256 == 214
    ensures 7834 * 8 / 256 == 244 && 7834 * 9 / 256 == 275 && 7834 * 10 / 256 == 306 && 7834 * 11 / 256 == 336
    ensures 7834 * 12 / 256 == 367 && 7834 * 13 / 256 == 397 && 7834 * 14 / 256 == 428 && 7834 * 15 / 256 == 459
  {
  }

  lemma LeapShift(y: int)
    ensures Leap(y + 4800) == Leap(y)
  {
    ShiftBy4(y);
    ShiftBy100(y);
    ShiftBy400(y);
  }

  lemma ShiftBy4(y: int)
    ensures (y + 4800) % 4 == y % 4
  {
  }

  lemma ShiftBy100(y: int)
    ensures (y + 4800) % 100 == y % 100
  {
  }

  lemma ShiftBy400(y: int)
    ensures (y + 4800) % 400 == y % 400
  {
  }

  lemma NextYear(y: int)
    requires y >= 0
    ensures DaysBefore(y + 1) == DaysBefore(y) + YearLength(y)
  {
    hide DaysBefore, Leap;
    var q, c, a, b := Parts(y);
    var q', c', a', b' := Parts(y + 1);
    if b < 3 {
      assert q' == q && c' == c && a' == a && b' == b + 1;
    } else if a < 24 {
      assert q' == q && c' == c && a' == a + 1 && b' == 0;
    } else if c < 3 {
      assert q' == q && c' == c + 1 && a' == 0 && b' == 0;
    } else {
      assert q' == q + 1 && c' == 0 && a' == 0 && b' == 0;
    }
  }

  /** A year in the parts of the 400-year cycle. */
  lemma Parts(y: int) returns (q: int, c: int, a: int, b: int)
    requires y >= 0
    ensures 0 <= q && 0 <= c <= 3 && 0 <= a <= 24 && 0 <= b <= 3 && y == 400 * q + 100 * c + 4 * a + b
    ensures y / 4 == 100 * q + 25 * c + a && y / 100 == 4 * q + c && y / 100 / 4 == q
    ensures DaysBefore(y) == 146097 * q + 36524 * c + 1461 * a + 365 * b
    ensures Leap(y + 1) <==> b == 3 && (a == 24 ==> c == 3)
  {
    q := y / 400;
    c := (y - 400 * q) / 100;
    a := (y - 400 * q - 100 * c) / 4;
    b := y - 400 * q - 100 * c - 4 * a;
    LeapParts(q, c, a, b);
  }

  lemma LeapParts(q: int, c: int, a: int, b: int)
    requires 0 <= q && 0 <= c <= 3 && 0 <= a <= 24 && 0 <= b <= 3
    ensures Leap(400 * q + 100 * c + 4 * a + b + 1) <==> b == 3 && (a == 24 ==> c == 3)
  {
    var y := 400 * q + 100 * c + 4 * a + b + 1;
    if b < 3 {
      DivUnique(y, 4, 100 * q + 25 * c + a, b + 1);
    } else {
      DivUnique(y, 4, 100 * q + 25 * c + a + 1, 0);
      if a < 24 {
        DivUnique(y, 100, 4 * q + c, 4 * a + 4);
      } else {
        DivUnique(y, 100, 4 * q + c + 1, 0);
        if c < 3 { DivUnique(y, 400, q, 100 * (c + 1)); } else { DivUnique(y, 400, q + 1, 0); }
      }
    }
  }

  // ----- taking a day number apart -----

  /** The parts of a day number: 400-year cycle, century, leap cycle, year, day. */
  predicate PartsOk(q: int, c: int, a: int, b: int, t: int)
  {
    && 0 <= q && 0 <= c <= 3 && 0 <= a <= 24 && 0 <= b <= 3
    && 0 <= t <= (if b == 3 && (a == 24 ==> c == 3) then 365 else 364)
  }

  lemma SplitCentury(q: int, c: int, a: int, b: int, t: int)
    requires PartsOk(q, c, a, b, t)
    ensures var julian := 146097 * q + 36524 * c + 1461 * a + 365 * b + t;
            && julian / 146097 == q
            && ((julian - q * 146097) * 4 + 3) / 146097 == c
  {
    var doe := 36524 * c + 1461 * a + 365 * b + t;
    assert 0 <= doe < 146097;
    assert 146097 * c <= doe * 4 + 3 < 146097 * (c + 1);
  }

  lemma SplitYear(n: int, b: int, t: int)
    requires 0 <= n && 0 <= b <= 3 && 0 <= t <= 365 && (t == 365 ==> b == 3)
    ensures var julian := 1461 * n + 365 * b + t + 60;
            SplitCycles(julian) == SplitDay(4 * n + b + (if t >= 306 then 1 else 0) - 4800, t + 123)
  {
    hide SplitDay;
    var julian := 1461 * n + 365 * b + t + 60;
    if b == 3 && t >= 306 {
      assert julian == 1461 * (n + 1) + (t - 306);
      assert julian / 1461 == n + 1;
    } else {
      assert julian / 1461 == n;
      var j3 := 365 * b + t + 60;
      if t < 306 {
        assert j3 * 4 / 1461 == b;
        assert b == 0 ==> (j3 + 306) % 366 == t;
        assert b != 0 ==> (j3 + 305) % 365 == t;
      } else {
        assert j3 * 4 / 1461 == b + 1;
        assert (j3 + 305) % 365 == t;
      }
    }
  }

  lemma SplitMonth(x: Date)
    requires IsDate(x)
    ensures SplitDay(x.year, DayOfYear(x) + 123) == x
  {
    MonthStarts();
    assert (DayOfYear(x) + 123) * 2141 / 65536 == MarchMonth(x);
  }

  /** A date survives the conversion to a day number and back. */
  lemma DateRoundTrip(x: Date)
    requires IsDate(x)
    ensures SplitDate(BuildDate(x)) == x
  {
    hide BuildDate, DaysBefore, DayOfYear, Leap, SplitDay, SplitCycles;
    var y, t := MarchYear(x), DayOfYear(x);
    BuildIsSum(x);
    DayOfYearRange(x);
    var q, c, a, b := Parts(y);
    var julian := BuildDate(x) + 32044;
    assert julian == 146097 * q + 36524 * c + 1461 * a + 365 * b + t;
    SplitCentury(q, c, a, b, t);
    var n := 100 * q + 25 * c + a;
    assert julian + (60 + q * 3 + c) == 1461 * n + 365 * b + t + 60;
    SplitYear(n, b, t);
    SplitMonth(x);
  }

  // ----- calendar order -----

  predicate Before(x: Date, z: Date)
  {
    x.year < z.year || (x.year == z.year && (x.month < z.month || (x.month == z.month && x.day < z.day)))
  }

  lemma {:induction false} DaysBeforeMonotone(y: int, z: int)
    requires 0 <= y <= z
    ensures DaysBefore(y) <= DaysBefore(z)
    decreases z - y
  {
    if y < z {
      NextYear(z - 1);
      DaysBeforeMonotone(y, z - 1);
    }
  }

  lemma SameYearOrder(x: Date, z: Date)
    requires IsDate(x) && IsDate(z) && MarchYear(x) == MarchYear(z) && Before(x, z)
    ensures DayOfYear(x) < DayOfYear(z)
  {
    MonthStarts();
  }

  /** Day numbers follow the calendar. */
  lemma BuildDateIncreases(x: Date, z: Date)
    requires IsDate(x) && IsDate(z) && Before(x, z)
    ensures BuildDate(x) < BuildDate(z)
  {
    BuildIsSum(x);
    BuildIsSum(z);
    DayOfYearRange(x);
    DayOfYearRange(z);
    var y, w := MarchYear(x), MarchYear(z);
    if y == w {
      SameYearOrder(x, z);
    } else {
      NextYear(y);
      DaysBeforeMonotone(y + 1, w);
    }
  }

  function NextDay(x: Date): (z: Date)
  {
    if x.day < DaysInMonth(x.year, x.month) then x.(day := x.day + 1)
    else if x.month < 12 then Date(x.year, x.month + 1, 1)
    else Date(x.year + 1, 1, 1)
  }

  /** Consecutive days have consecutive numbers. */
  lemma NextDayIsNext(x: Date)
    requires IsDate(x)
    ensures IsDate(NextDay(x)) && BuildDate(NextDay(x)) == BuildDate(x) + 1
  {
    hide BuildDate, DaysBefore, Leap;
    var z := NextDay(x);
    BuildIsSum(x);
    BuildIsSum(z);
    MonthStarts();
    if x.month == 2 && z.month == 3 {
      NextYear(MarchYear(x));
      LeapShift(x.year);
    }
  }

  /** Every day number from year 0 on is the number of a date. */
  lemma {:induction false} EveryDayHasADate(jd: int)
    requires jd >= BuildDate(Date(0, 1, 1))
    ensures IsDate(SplitDate(jd)) && BuildDate(SplitDate(jd)) == jd
    decreases jd - BuildDate(Date(0, 1, 1))
  {
    hide BuildDate, SplitDate, NextDay, Leap;
    var first := Date(0, 1, 1);
    DateRoundTrip(first);
    if jd > BuildDate(first) {
      EveryDayHasADate(jd - 1);
      var x := SplitDate(jd - 1);
      NextDayIsNext(x);
      DateRoundTrip(NextDay(x));
    }
  }

  /** As long as the day number fits a signed 32-bit number, so does every intermediate result;
      only the sums of `SplitDate` need the unsigned range, which they have there. */
  lemma FitsIn32(x: Date)
    requires IsDate(x) && BuildDate(x) < 0x8000_0000
    ensures 0 <= BuildDate(x) && (x.year + 4800) * 365 < 0x8000_0000
    ensures BuildDate(x) + 32044 + 60 + 3 * ((BuildDate(x) + 32044) / 146097) + 3 < 0x1_0000_0000
  {
    BuildIsSum(x);
    DayOfYearRange(x);
    var q, c, a, b := Parts(MarchYear(x));
  }

  /** The last date whose number fits. */
  lemma LastDateThatFits(x: Date)
    requires IsDate(x)
    ensures BuildDate(x) < 0x8000_0000 <==> x == Date(5874898, 6, 3) || Before(x, Date(5874898, 6, 3))
  {
    hide BuildDate;
    var last := Date(5874898, 6, 3);
    LastNumber();
    if Before(x, last) {
      BuildDateIncreases(x, last);
    } else if x != last {
      BuildDateIncreases(last, x);
    }
  }

  lemma LastNumber()
    ensures IsDate(Date(5874898, 6, 3)) && BuildDate(Date(5874898, 6, 3)) == 0x7fff_ffff
  {
  }
}

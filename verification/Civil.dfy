/** Civil dates as day numbers: daysFromCivil of query/write_encode_time.go and the proleptic Gregorian calendar. */
module Civil {
  datatype Date = Date(y: int, m: int, d: int)

  /** Go's integer division, toward zero. */
  function Div(a: int, b: int): int
    requires b > 0
  {
    if a >= 0 then a / b else -((-a) / b)
  }

  function Rem(a: int, b: int): int
    requires b > 0
  {
    a - Div(a, b) * b
  }

  function Era(y: int): int {
    if y < 0 && Rem(y, 400) != 0 then Div(y - 399, 400) else Div(y, 400)
  }

  function DaysFromCivil(year: int, m: int, d: int): int {
    var y := if m <= 2 then year - 1 else year;
    var era := Era(y);
    var yoe := y - era * 400;
    var mp := Rem(m + 9, 12);
    var doy := Div(153 * mp + 2, 5) + d - 1;
    var doe := yoe * 365 + Div(yoe, 4) - Div(yoe, 100) + doy;
    era * 146097 + doe - 719468
  }

  predicate IsLeap(y: int) {
    Rem(y, 4) == 0 && (Rem(y, 100) != 0 || Rem(y, 400) == 0)
  }

  function DaysInMonth(y: int, m: int): int {
    if m == 2 then if IsLeap(y) then 29 else 28
    else if m == 4 || m == 6 || m == 9 || m == 11 then 30
    else 31
  }

  /** A date of the calendar: what the parser lets through to the day number. */
  predicate Valid(t: Date) {
    1 <= t.m <= 12 && 1 <= t.d <= DaysInMonth(t.y, t.m)
  }

  function Days(t: Date): int {
    DaysFromCivil(t.y, t.m, t.d)
  }

  // ---- the calendar ----------------------------------------------------------------------------------

  function Next(t: Date): Date {
    if t.d < DaysInMonth(t.y, t.m) then Date(t.y, t.m, t.d + 1)
    else if t.m < 12 then Date(t.y, t.m + 1, 1)
    else Date(t.y + 1, 1, 1)
  }

  function Previous(t: Date): Date {
    if t.d > 1 then Date(t.y, t.m, t.d - 1)
    else if t.m > 1 then Date(t.y, t.m - 1, DaysInMonth(t.y, t.m - 1))
    else Date(t.y - 1, 12, 31)
  }

  predicate Before(a: Date, b: Date) {
    a.y < b.y || (a.y == b.y && (a.m < b.m || (a.m == b.m && a.d < b.d)))
  }

  // ---- years ------------------------------------------------------------------------------------------

  /** With truncating division spelled out, the era is the floor of the year over 400. */
  lemma EraFloor(y: int)
    ensures Era(y) == y / 400 && 0 <= y - Era(y) * 400 < 400
  {
  }

  lemma LeapFloor(y: int)
    ensures IsLeap(y) <==> y % 4 == 0 && (y % 100 != 0 || y % 400 == 0)
  {
    assert Rem(y, 4) == 0 <==> y % 4 == 0;
    assert Rem(y, 100) == 0 <==> y % 100 == 0;
    assert Rem(y, 400) == 0 <==> y % 400 == 0;
  }

  /** The day number of the first of March of a year, from which the months run. */
  function March(y: int): int {
    365 * y + y / 4 - y / 100 + y / 400 - 719468
  }

  lemma MarchDays(y: int)
    ensures var yoe := y - y / 400 * 400;
            (y / 400) * 146097 + (yoe * 365 + yoe / 4 - yoe / 100) - 719468 == March(y)
  {
    var era := y / 400;
    var yoe := y - era * 400;
    assert y == era * 400 + yoe && 0 <= yoe < 400;
    assert y / 4 == era * 100 + yoe / 4;
    assert y / 100 == era * 4 + yoe / 100;
  }

  /** Months from March: the days before each. */
  function BeforeMonth(mp: int): int {
    (153 * mp + 2) / 5
  }

  lemma DaysForm(y: int, m: int, d: int)
    requires 1 <= m <= 12
    ensures DaysFromCivil(y, m, d) == March(if m <= 2 then y - 1
                                            else y) + BeforeMonth(if m <= 2 then m + 9 else m - 3) + d - 1
  {
    var y' := if m <= 2 then y - 1 else y;
    EraFloor(y');
    MarchDays(y');
  }

  lemma YearLength(y: int)
    ensures March(y + 1) - March(y) == if IsLeap(y + 1) then 366 else 365
  {
    LeapFloor(y + 1);
    Floor4(y);
    Floor100(y);
    Floor400(y);
  }

  lemma Floor4(y: int)
    ensures (y + 1) / 4 - y / 4 == if (y + 1) % 4 == 0 then 1 else 0
  {
  }

  lemma Floor100(y: int)
    ensures (y + 1) / 100 - y / 100 == if (y + 1) % 100 == 0 then 1 else 0
    ensures (y + 1) % 100 == 0 ==> (y + 1) % 4 == 0
  {
  }

  lemma Floor400(y: int)
    ensures (y + 1) / 400 - y / 400 == if (y + 1) % 400 == 0 then 1 else 0
    ensures (y + 1) % 400 == 0 ==> (y + 1) % 100 == 0
  {
  }

  // ---- the day after --------------------------------------------------------------------------------------

  /** The day after is one more, across months, leap years, centuries and the years before Christ. */
  lemma NextDay(t: Date)
    requires Valid(t)
    ensures Valid(Next(t)) && Days(Next(t)) == Days(t) + 1
  {
    hide March, IsLeap, DaysFromCivil;
    var n := Next(t);
    DaysForm(t.y, t.m, t.d);
    DaysForm(n.y, n.m, n.d);
    YearLength(t.y - 1);
  }

  lemma PreviousDay(t: Date)
    requires Valid(t)
    ensures Valid(Previous(t)) && Next(Previous(t)) == t && Days(Previous(t)) == Days(t) - 1
  {
    hide IsLeap, DaysFromCivil;
    NextDay(Previous(t));
  }

  lemma Epoch()
    ensures DaysFromCivil(1970, 1, 1) == 0
  {
  }

  // ---- a bijection --------------------------------------------------------------------------------------------

  /** The days of a year lie between its first day and the next year's. */
  lemma YearRange(t: Date)
    requires Valid(t)
    ensures DaysFromCivil(t.y, 1, 1) <= Days(t) < DaysFromCivil(t.y + 1, 1, 1)
  {
    hide March, IsLeap, DaysFromCivil;
    DaysForm(t.y, 1, 1);
    DaysForm(t.y, t.m, t.d);
    DaysForm(t.y + 1, 1, 1);
    YearLength(t.y - 1);
  }

  lemma {:induction false} YearsGrow(a: int, b: int)
    requires a <= b
    ensures DaysFromCivil(a, 1, 1) <= DaysFromCivil(b, 1, 1)
    decreases b - a
  {
    hide DaysFromCivil;
    if a < b {
      YearsGrow(a, b - 1);
      YearRange(Date(b - 1, 1, 1));
    }
  }

  /** Later dates have greater numbers. */
  lemma Increasing(a: Date, b: Date)
    requires Valid(a) && Valid(b) && Before(a, b)
    ensures Days(a) < Days(b)
  {
    hide March, IsLeap, DaysFromCivil;
    if a.y < b.y {
      YearRange(a);
      YearRange(b);
      YearsGrow(a.y + 1, b.y);
    } else {
      DaysForm(a.y, a.m, a.d);
      DaysForm(b.y, b.m, b.d);
      YearLength(a.y - 1);
    }
  }

  /** No two dates share a number. */
  lemma Injective(a: Date, b: Date)
    requires Valid(a) && Valid(b) && Days(a) == Days(b)
    ensures a == b
  {
    hide Days, Valid;
    if Before(a, b) {
      Increasing(a, b);
    } else if Before(b, a) {
      Increasing(b, a);
    }
  }

  /** And every number is some date's. */
  lemma {:induction false} Surjective(n: int) returns (t: Date)
    ensures Valid(t) && Days(t) == n
    decreases if n >= 0 then n else -n
  {
    hide DaysFromCivil, IsLeap;
    if n == 0 {
      t := Date(1970, 1, 1);
      Epoch();
    } else if n > 0 {
      t := Surjective(n - 1);
      NextDay(t);
      t := Next(t);
    } else {
      t := Surjective(n + 1);
      PreviousDay(t);
      t := Previous(t);
    }
  }
}

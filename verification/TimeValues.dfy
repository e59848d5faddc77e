/** Comparison of time values given in seconds or in months of unknown length. */
module TimeValues {
  import opened Numbers

  // Months are bounded from both sides by days; a comparison with seconds between the bounds is
  // undecided and throws. Zero and the two extreme values are compared before any units are looked at.

  const MAX_INT32 := 2_147_483_647
  const MIN_INT32 := -2_147_483_648
  const SECONDS_PER_DAY := 86_400

  datatype Unit = NoUnit | Second | Month

  datatype TimeValue = TimeValue(value: int, unit: Unit)

  /** What compareTo gives: a number, or one of its two exceptions. */
  datatype Comparison = Answer(result: int) | DifferentMonths | UnsupportedUnit

  function LowerBound(months: int): int {
    months / 12 * (365 * SECONDS_PER_DAY) + Remainder(months, 12) * (28 * SECONDS_PER_DAY)
  }

  function UpperBound(months: int): int {
    months / 12 * (366 * SECONDS_PER_DAY) + Remainder(months, 12) * (31 * SECONDS_PER_DAY)
  }

  function Lower(t: TimeValue): int {
    if t.unit.Month? then LowerBound(t.value) else t.value
  }

  function Upper(t: TimeValue): int {
    if t.unit.Month? then UpperBound(t.value) else t.value
  }

  predicate IsMax(t: TimeValue) {
    t.unit.NoUnit? && t.value >= MAX_INT32
  }

  predicate IsMin(t: TimeValue) {
    t.unit.NoUnit? && t.value <= MIN_INT32
  }

  predicate Special(t: TimeValue) {
    IsMax(t) || IsMin(t)
  }

  function SpecialCompare(a: TimeValue, b: TimeValue): int
    requires Special(a) || Special(b)
  {
    if IsMax(a) then (if IsMax(b) then 0 else 1)
    else if IsMax(b) then -1
    else if IsMin(a) then (if IsMin(b) then 0 else -1)
    else 1
  }

  function Trim(result: int): int {
    if result > MAX_INT32 then MAX_INT32 else if result < MIN_INT32 then MIN_INT32 else result
  }

  function CompareTo(a: TimeValue, b: TimeValue): Comparison {
    if a.value == 0 || b.value == 0 then Answer(a.value - b.value)
    else if Special(a) || Special(b) then Answer(SpecialCompare(a, b))
    else if a.unit == b.unit then Answer(Trim(a.value - b.value))
    else if a.unit.NoUnit? || b.unit.NoUnit? then UnsupportedUnit
    else if Upper(b) < Lower(a) then Answer(1)
    else if Lower(b) > Upper(a) then Answer(-1)
    else DifferentMonths
  }

  // ---------------------------------------------------------------------------------
  // Bounds

  lemma {:induction false} BoundsAreStrictlyMonotone(m: nat, n: nat)
    requires m < n
    ensures LowerBound(m) < LowerBound(n) && UpperBound(m) < UpperBound(n)
  {
    var y, r, z, s := m / 12, m % 12, n / 12, n % 12;
    assert y <= z && (y == z ==> r < s);
    assert 12 * y + r == m && 12 * z + s == n;
  }

  /** The bounds in days: whole years of 365 or 366 days, and the months left of 28 or 31; before
      zero the years are rounded away from it, although the months are not. */
  lemma {:induction false} BoundsInDays(years: nat, months: nat)
    requires months < 12
    ensures LowerBound(12 * years + months) == (365 * years + 28 * months) * 86_400
    ensures UpperBound(12 * years + months) == (366 * years + 31 * months) * 86_400
    ensures months > 0 ==>
              && LowerBound(-12 * years - months) == -(365 * (years + 1) + 28 * months) * 86_400
              && UpperBound(-12 * years - months) == -(366 * (years + 1) + 31 * months) * 86_400
  {
    assert (12 * years + months) / 12 == years && (12 * years + months) % 12 == months;
    assert months > 0 ==> (-12 * years - months) / 12 == -(years as int) - 1;
  }

  lemma {:induction false} BoundsAreOrdered(m: nat)
    ensures 0 <= LowerBound(m) <= UpperBound(m)
    ensures m > 0 ==> LowerBound(m) < UpperBound(m)
  {
    assert 12 * (m / 12) + m % 12 == m;
  }

  // ---------------------------------------------------------------------------------
  // Antisymmetry

  function Sign(n: int): int {
    if n > 0 then 1 else if n < 0 then -1 else 0
  }

  predicate Opposite(x: Comparison, y: Comparison) {
    if x.Answer? && y.Answer? then Sign(x.result) == -Sign(y.result) else x == y
  }

  /** A negative month count whose crossed bounds have the number of seconds between them. */
  predicate Crossed(m: TimeValue, s: TimeValue) {
    m.unit.Month? && s.unit.Second? && m.value < 0 && s.value != 0
    && UpperBound(m.value) < s.value < LowerBound(m.value)
  }

  /** Comparing the other way round gives the opposite answer, or the same exception, for all
      values of all units except a negative month count with the seconds between its bounds. */
  lemma {:induction false} AntisymmetricExactlyWhen(a: TimeValue, b: TimeValue)
    ensures Opposite(CompareTo(a, b), CompareTo(b, a)) <==> !Crossed(a, b) && !Crossed(b, a)
  {
    if a.unit.Month? && a.value >= 0 {
      BoundsAreOrdered(a.value);
    }
    if b.unit.Month? && b.value >= 0 {
      BoundsAreOrdered(b.value);
    }
  }

  /** Minus one month against minus 395 days: each counts as greater than the other. */
  lemma {:induction false} NegativeMonthsAreCrossed()
    ensures var m, s := TimeValue(-1, Month), TimeValue(-395 * SECONDS_PER_DAY, Second);
      CompareTo(m, s) == Answer(1) && CompareTo(s, m) == Answer(1)
  {
  }

  /** Where the difference fits in 32 bits the two answers are negatives of each other. */
  lemma {:induction false} AnswersAreNegatives(a: TimeValue, b: TimeValue)
    requires a.value >= 0 && b.value >= 0 && MIN_INT32 < a.value - b.value < -MIN_INT32
    requires CompareTo(a, b).Answer?
    ensures CompareTo(b, a) == Answer(-CompareTo(a, b).result)
  {
    AntisymmetricExactlyWhen(a, b);
  }

  /** The extremes have no unit; anything but zero is below the largest and above the smallest, in
      whatever unit, and two of a kind are the same. */
  lemma {:induction false} ExtremesCompare(a: TimeValue, b: TimeValue)
    requires a.unit == NoUnit && b.value != 0
    ensures a.value >= 2_147_483_647 ==>
              var same := b.unit == NoUnit && b.value >= 2_147_483_647;
              && CompareTo(a, b) == Answer(if same then 0 else 1)
              && CompareTo(b, a) == Answer(if same then 0 else -1)
    ensures a.value <= -2_147_483_648 ==>
              var same, largest := b.unit == NoUnit && b.value <= -2_147_483_648,
                                   b.unit == NoUnit && b.value >= 2_147_483_647;
              && CompareTo(a, b) == Answer(if same then 0 else -1)
              && CompareTo(b, a) == Answer(if same then 0 else 1)
              && (largest ==> CompareTo(b, a) == Answer(1))
  {
  }

  /** In one unit the answer is the difference, or the nearest number of 32 bits; with zero it is
      the difference whatever the units are. */
  lemma {:induction false} SameUnitAnswers(a: TimeValue, b: TimeValue)
    ensures a.value == 0 || b.value == 0 ==> CompareTo(a, b) == Answer(a.value - b.value)
    ensures a.unit == b.unit && a.unit != NoUnit && a.value != 0 && b.value != 0 ==>
              var difference := a.value - b.value;
              CompareTo(a, b) == Answer(if difference > 2_147_483_647 then 2_147_483_647
                                        else if difference < -2_147_483_648 then -2_147_483_648
                                        else difference)
  {
  }

  /** A value without a unit, unless it is zero or an extreme, compares with no unit but its own. */
  lemma {:induction false} NoUnitComparesWithNoOther(a: TimeValue, b: TimeValue)
    requires a.unit == NoUnit && b.unit != NoUnit && a.value != 0 && b.value != 0
    requires -2_147_483_648 < a.value < 2_147_483_647
    ensures CompareTo(a, b) == UnsupportedUnit && CompareTo(b, a) == UnsupportedUnit
  {
  }

  // ---------------------------------------------------------------------------------
  // Transitivity

  /** Zero in any unit, a positive number of seconds or months, or one of the two extremes. */
  predicate Proper(t: TimeValue) {
    t.value == 0 || Special(t) || (t.value > 0 && !t.unit.NoUnit?)
  }

  predicate Less(a: TimeValue, b: TimeValue) {
    CompareTo(a, b).Answer? && CompareTo(a, b).result < 0
  }

  predicate Same(a: TimeValue, b: TimeValue) {
    CompareTo(a, b) == Answer(0)
  }

  lemma {:induction false} PositiveLess(a: TimeValue, b: TimeValue)
    requires a.value > 0 && b.value > 0 && !a.unit.NoUnit? && !b.unit.NoUnit?
    ensures Less(a, b) <==> if a.unit == b.unit then a.value < b.value else Upper(a) < Lower(b)
  {
    if a.unit.Month? {
      BoundsAreOrdered(a.value);
    }
    if b.unit.Month? {
      BoundsAreOrdered(b.value);
    }
  }

  lemma {:induction false} PositiveBounds(a: TimeValue, b: TimeValue)
    requires a.value > 0 && b.value > 0 && a.unit == b.unit
    ensures Lower(a) <= Upper(a)
    ensures a.value < b.value ==> Lower(a) < Lower(b) && Upper(a) < Upper(b)
    ensures a.value >= b.value ==> Lower(a) >= Lower(b) && Upper(a) >= Upper(b)
  {
    if a.unit.Month? {
      BoundsAreOrdered(a.value);
      if a.value < b.value {
        BoundsAreStrictlyMonotone(a.value, b.value);
      } else if b.value < a.value {
        BoundsAreStrictlyMonotone(b.value, a.value);
      }
    }
  }

  lemma {:induction false} PositiveTransitive(a: TimeValue, b: TimeValue, c: TimeValue)
    requires a.value > 0 && b.value > 0 && c.value > 0
    requires !a.unit.NoUnit? && !b.unit.NoUnit? && !c.unit.NoUnit?
    requires Less(a, b) && Less(b, c)
    ensures Less(a, c)
  {
    PositiveLess(a, b);
    PositiveLess(b, c);
    PositiveLess(a, c);
    PositiveBounds(a, a);
    PositiveBounds(b, b);
    PositiveBounds(c, c);
    if a.unit == b.unit {
      PositiveBounds(a, b);
    } else if b.unit == c.unit {
      PositiveBounds(b, c);
    } else {
      PositiveBounds(a, c);
    }
  }

  lemma {:induction false} ExtremesAreExtreme(a: TimeValue, b: TimeValue)
    requires Proper(a) && Proper(b)
    ensures IsMax(a) ==> !Less(a, b) && (!IsMax(b) ==> Less(b, a))
    ensures IsMin(a) ==> !Less(b, a) && (!IsMin(b) ==> Less(a, b))
    ensures a.value == 0 && !Special(b) ==> !Less(b, a) && (b.value > 0 ==> Less(a, b))
  {
  }

  /** Definite answers are transitive across seconds, months, zero and the extremes: if two
      comparisons have an answer, so has the third. */
  lemma {:induction false} LessIsTransitive(a: TimeValue, b: TimeValue, c: TimeValue)
    requires Proper(a) && Proper(b) && Proper(c)
    requires Less(a, b) && Less(b, c)
    ensures Less(a, c)
  {
    ExtremesAreExtreme(a, c);
    ExtremesAreExtreme(c, a);
    ExtremesAreExtreme(b, a);
    ExtremesAreExtreme(b, c);
    ExtremesAreExtreme(a, b);
    ExtremesAreExtreme(c, b);
    if !Special(a) && !Special(b) && !Special(c) && a.value != 0 {
      PositiveTransitive(a, b, c);
    }
  }

  /** Values that compare equal can stand for each other. */
  lemma {:induction false} SameIsCongruent(a: TimeValue, b: TimeValue, c: TimeValue)
    requires Proper(a) && Proper(b) && Proper(c) && Same(a, b)
    ensures Less(a, c) <==> Less(b, c)
    ensures Less(c, a) <==> Less(c, b)
    ensures Same(a, c) <==> Same(b, c)
  {
    SameMeansEqual(a, b);
  }

  lemma {:induction false} SameMeansEqual(a: TimeValue, b: TimeValue)
    requires Proper(a) && Proper(b)
    ensures Same(a, b) <==>
      a == b || (a.value == 0 && b.value == 0) || (IsMax(a) && IsMax(b)) || (IsMin(a) && IsMin(b))
  {
    if a.unit.Month? && a.value >= 0 {
      BoundsAreOrdered(a.value);
    }
    if b.unit.Month? && b.value >= 0 {
      BoundsAreOrdered(b.value);
    }
  }

  // ---------------------------------------------------------------------------------
  // What the answers mean: the Gregorian calendar as reference

  predicate LeapYear(year: nat) {
    year % 4 == 0 && (year % 100 != 0 || year % 400 == 0)
  }

  /** The days of a month, months being counted from January of year zero. */
  function DaysInMonth(month: nat): (days: nat)
    ensures 28 <= days <= 31
  {
    if month % 12 == 1 then (if LeapYear(month / 12) then 29 else 28)
    else if month % 12 in {3, 5, 8, 10} then 30
    else 31
  }

  /** The days of so many consecutive months. */
  function Days(start: nat, months: nat): nat {
    if months == 0 then 0 else Days(start, months - 1) + DaysInMonth(start + months - 1)
  }

  lemma {:induction false} DaysAddUp(start: nat, m: nat, n: nat)
    ensures Days(start, m + n) == Days(start, m) + Days(start + m, n)
  {
    if n > 0 {
      DaysAddUp(start, m, n - 1);
      var last := start + m + n - 1;
      assert Days(start, m + n) == Days(start, m + (n - 1)) + DaysInMonth(last);
      assert Days(start + m, n) == Days(start + m, n - 1) + DaysInMonth(last);
    }
  }

  lemma {:induction false} DaysOfFewMonths(start: nat, months: nat)
    ensures 28 * months <= Days(start, months) <= 31 * months
  {
    if months > 0 {
      DaysOfFewMonths(start, months - 1);
    }
  }

  function DaysInYear(year: nat): nat {
    if LeapYear(year) then 366 else 365
  }

  lemma {:induction false} OneMoreMonth(year: nat, m: nat)
    requires m < 12
    ensures Days(12 * year, m + 1) == Days(12 * year, m) +
      if m == 1 then DaysInYear(year) - 337 else if m in {3, 5, 8, 10} then 30 else 31
  {
    assert (12 * year + m) % 12 == m && (12 * year + m) / 12 == year;
  }

  lemma {:induction false} YearFromJanuary(year: nat)
    ensures Days(12 * year, 12) == DaysInYear(year)
  {
    forall m: nat | m < 12
      ensures Days(12 * year, m + 1) == Days(12 * year, m) +
        if m == 1 then DaysInYear(year) - 337 else if m in {3, 5, 8, 10} then 30 else 31
    {
      OneMoreMonth(year, m);
    }
    var k := 12 * year;
    assert Days(k, 0) == 0;
    assert Days(k, 0 + 1) == 31;
    assert Days(k, 1 + 1) == DaysInYear(year) - 306;
    assert Days(k, 2 + 1) == DaysInYear(year) - 275;
    assert Days(k, 3 + 1) == DaysInYear(year) - 245;
    assert Days(k, 4 + 1) == DaysInYear(year) - 214;
    assert Days(k, 5 + 1) == DaysInYear(year) - 184;
    assert Days(k, 6 + 1) == DaysInYear(year) - 153;
    assert Days(k, 7 + 1) == DaysInYear(year) - 122;
    assert Days(k, 8 + 1) == DaysInYear(year) - 92;
    assert Days(k, 9 + 1) == DaysInYear(year) - 61;
    assert Days(k, 10 + 1) == DaysInYear(year) - 31;
    assert Days(k, 11 + 1) == DaysInYear(year);
  }

  /** Moving a twelve-month window by one month swaps a month for the same month a year later. */
  lemma {:induction false} TwelveMonths(year: nat, offset: nat)
    requires offset <= 12
    ensures Days(12 * year + offset, 12) == DaysInYear(if offset <= 1 then year else year + 1)
  {
    if offset == 0 {
      YearFromJanuary(year);
    } else {
      TwelveMonths(year, offset - 1);
      var k := 12 * year + offset - 1;
      DaysAddUp(k, 1, 12);
      assert Days(k, 1) == Days(k, 0) + DaysInMonth(k);
      assert Days(k, 13) == Days(k, 12) + DaysInMonth(k + 12);
      assert (k + 12) % 12 == k % 12 && (k + 12) / 12 == k / 12 + 1;
      if offset == 12 {
        assert k % 12 == 11;
      } else {
        assert k % 12 == offset - 1 && k / 12 == year;
      }
    }
  }

  lemma {:induction false} DaysOfYear(start: nat)
    ensures 365 <= Days(start, 12) <= 366
  {
    TwelveMonths(start / 12, start % 12);
  }

  lemma {:induction false} BoundsOfOneYearMore(months: nat)
    ensures LowerBound(months + 12) == LowerBound(months) + 365 * SECONDS_PER_DAY
    ensures UpperBound(months + 12) == UpperBound(months) + 366 * SECONDS_PER_DAY
  {
    assert (months + 12) / 12 == months / 12 + 1 && (months + 12) % 12 == months % 12;
  }

  /** However the months fall in the calendar, their days lie between the bounds. */
  lemma {:induction false} CalendarIsWithinBounds(start: nat, months: nat)
    ensures LowerBound(months) <= Days(start, months) * SECONDS_PER_DAY <= UpperBound(months)
    decreases months
  {
    if months < 12 {
      DaysOfFewMonths(start, months);
    } else {
      CalendarIsWithinBounds(start, months - 12);
      DaysOfYear(start + (months - 12));
      DaysAddUp(start, months - 12, 12);
      BoundsOfOneYearMore(months - 12);
    }
  }

  /** A length in seconds that so many months may have. */
  predicate Possible(months: nat, length: real) {
    LowerBound(months) as real <= length <= UpperBound(months) as real
  }

  /** A number of months compares with a number of seconds exactly when every length between the
      bounds agrees on the answer, and then every stretch of the calendar does. */
  lemma {:induction false} AnswerHoldsForEveryLength(months: nat, seconds: nat)
    requires months > 0 && seconds > 0
    ensures var answer := CompareTo(TimeValue(months, Month), TimeValue(seconds, Second));
      && (answer == Answer(1) <==> forall length | Possible(months, length) :: length > seconds as real)
      && (answer == Answer(-1) <==> forall length | Possible(months, length) :: length < seconds as real)
      && (answer == DifferentMonths <==> Possible(months, seconds as real))
      && (answer == Answer(1) ==> forall start: nat :: Days(start, months) * SECONDS_PER_DAY > seconds)
      && (answer == Answer(-1) ==> forall start: nat :: Days(start, months) * SECONDS_PER_DAY < seconds)
  {
    BoundsAreOrdered(months);
    assert Possible(months, LowerBound(months) as real) && Possible(months, UpperBound(months) as real);
    forall start: nat
      ensures LowerBound(months) <= Days(start, months) * SECONDS_PER_DAY <= UpperBound(months)
    {
      CalendarIsWithinBounds(start, months);
    }
  }
}

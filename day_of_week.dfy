/**
 * `DayOfWeek` (DayOfWeek.java): the seven days, Monday = 1 to Sunday = 7, as
 * immutable singletons, obtained through a range-checked factory.
 */
module DayOfWeekField {
  import opened Results
  import opened JavaInt

  /** The values a day of week may hold. */
  type DayNumber = n: int | 1 <= n <= 7 witness 1

  /** A day of the week. */
  datatype DayOfWeek = DayOfWeek(dayOfWeek: DayNumber) {

    /** `getDayOfWeek`: the day's number, from which the factory gives back this day. */
    function GetDayOfWeek(): (n: int32)
      ensures 1 <= n <= 7
      ensures Of(n) == Ok(this)
    {
      dayOfWeek
    }

    /** Three-way comparison by the day's value. */
    function CompareTo(other: DayOfWeek): (c: int)
      ensures c == -1 <==> dayOfWeek < other.dayOfWeek
      ensures c == 0 <==> dayOfWeek == other.dayOfWeek
      ensures c == 1 <==> dayOfWeek > other.dayOfWeek
    {
      CompareInts(dayOfWeek, other.dayOfWeek)
    }

    function IsGreaterThan(other: DayOfWeek): (b: bool)
      ensures b <==> dayOfWeek > other.dayOfWeek
    {
      CompareTo(other) > 0
    }

    function IsLessThan(other: DayOfWeek): (b: bool)
      ensures b <==> dayOfWeek < other.dayOfWeek
    {
      CompareTo(other) < 0
    }

    /** `equals`: the same day. */
    function Equals(other: DayOfWeek): (b: bool)
      ensures b <==> this == other
    {
      dayOfWeek == other.dayOfWeek
    }

    /** `hashCode`: the day's value. */
    function HashCode(): (h: int32)
      ensures h == GetDayOfWeek()
    {
      dayOfWeek
    }
  }

  const MONDAY: DayOfWeek := DayOfWeek(1)
  const TUESDAY: DayOfWeek := DayOfWeek(2)
  const WEDNESDAY: DayOfWeek := DayOfWeek(3)
  const THURSDAY: DayOfWeek := DayOfWeek(4)
  const FRIDAY: DayOfWeek := DayOfWeek(5)
  const SATURDAY: DayOfWeek := DayOfWeek(6)
  const SUNDAY: DayOfWeek := DayOfWeek(7)

  /** The `IllegalArgumentException` for a value outside 1 to 7. */
  datatype IllegalArgument = IllegalArgument(value: int32)

  /** `DayOfWeek.dayOfWeek(n)`: the singleton for 1 to 7, an illegal-argument failure otherwise. */
  function Of(n: int32): (r: Result<DayOfWeek, IllegalArgument>)
    ensures r.Ok? <==> 1 <= n <= 7
    ensures r.Ok? ==> r.value.dayOfWeek == n
    ensures r.Err? ==> r.error == IllegalArgument(n)
  {
    match n
    case 1 => Ok(MONDAY)
    case 2 => Ok(TUESDAY)
    case 3 => Ok(WEDNESDAY)
    case 4 => Ok(THURSDAY)
    case 5 => Ok(FRIDAY)
    case 6 => Ok(SATURDAY)
    case 7 => Ok(SUNDAY)
    case _ => Err(IllegalArgument(n))
  }

  /** The constants carry 1 to 7 in order, each day before the next. */
  lemma ConstantsInOrder()
    ensures [MONDAY, TUESDAY, WEDNESDAY, THURSDAY, FRIDAY, SATURDAY, SUNDAY]
         == seq(7, i requires 0 <= i < 7 => DayOfWeek(i + 1))
    ensures MONDAY.IsLessThan(TUESDAY) && TUESDAY.IsLessThan(WEDNESDAY) && WEDNESDAY.IsLessThan(THURSDAY)
    ensures THURSDAY.IsLessThan(FRIDAY) && FRIDAY.IsLessThan(SATURDAY) && SATURDAY.IsLessThan(SUNDAY)
  {
  }

  /** `compareTo` is antisymmetric and agrees with `equals`. */
  lemma CompareToAntisymmetric(a: DayOfWeek, b: DayOfWeek)
    ensures a.CompareTo(b) == -b.CompareTo(a)
    ensures a.CompareTo(b) == 0 <==> a.Equals(b)
  {
  }

  /** Equal days have equal hash codes. */
  lemma EqualsHashCode(a: DayOfWeek, b: DayOfWeek)
    requires a.Equals(b)
    ensures a.HashCode() == b.HashCode()
  {
  }
}

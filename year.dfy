/** `Year` (Year.java): an immutable year held in a Java `int`. */
module YearField {
  import opened JavaInt

  /** `Year.year(n)`: the year `n`. */
  function Of(n: int32): (y: Year)
    ensures y.year == n
  {
    Year(n)
  }

  /** A year of the ISO calendar. */
  datatype Year = Year(year: int32) {

    /** `getYear`: the year, which the factory turns back into this year. */
    function GetYear(): (y: int32)
      ensures Of(y) == this
    {
      year
    }

    /** Three-way comparison by the year's value. */
    function CompareTo(other: Year): (c: int)
      ensures c == -1 <==> year < other.year
      ensures c == 0 <==> year == other.year
      ensures c == 1 <==> year > other.year
    {
      CompareInts(year, other.year)
    }

    function IsGreaterThan(other: Year): (b: bool)
      ensures b <==> year > other.year
    {
      CompareTo(other) > 0
    }

    function IsLessThan(other: Year): (b: bool)
      ensures b <==> year < other.year
    {
      CompareTo(other) < 0
    }

    /** `equals`: the same year. */
    function Equals(other: Year): (b: bool)
      ensures b <==> this == other
    {
      year == other.year
    }

    /** `hashCode`: the year's value. */
    function HashCode(): (h: int32)
      ensures h == GetYear()
    {
      year
    }
  }

  /** `compareTo` is antisymmetric and agrees with `equals`. */
  lemma CompareToAntisymmetric(a: Year, b: Year)
    ensures a.CompareTo(b) == -b.CompareTo(a)
    ensures a.CompareTo(b) == 0 <==> a.Equals(b)
  {
  }

  /** No year is both later and earlier than another; `isGreaterThan` is `isLessThan` reversed. */
  lemma GreaterAndLessExclusive(a: Year, b: Year)
    ensures !(a.IsGreaterThan(b) && a.IsLessThan(b))
    ensures a.IsGreaterThan(b) <==> b.IsLessThan(a)
  {
  }

  /** Equal years have equal hash codes. */
  lemma EqualsHashCode(a: Year, b: Year)
    requires a.Equals(b)
    ensures a.HashCode() == b.HashCode()
  {
  }
}

/**
 * `Weeks` (Weeks.java): an immutable period holding a number of weeks
 * in a Java `int`, with overflow-checked arithmetic.
 */
module WeeksPeriod {
  import opened Results
  import opened JavaInt
  import Decimal

  /** The period of zero weeks (the `ZERO` singleton). */
  const ZERO: Weeks := Weeks(0)

  /** `Weeks.weeks(n)`: the period of `n` weeks. */
  function Of(n: int32): (m: Weeks)
    ensures m.weeks == n
  {
    if n == 0 then ZERO else Weeks(n)
  }

  /** A period of a whole number of weeks. */
  datatype Weeks = Weeks(weeks: int32) {

    /** `getWeeks`: the amount, which the factory turns back into this period. */
    function GetWeeks(): (n: int32)
      ensures Of(n) == this
    {
      weeks
    }

    /** Three-way comparison by the number of weeks. */
    function CompareTo(other: Weeks): (c: int)
      ensures c == -1 <==> weeks < other.weeks
      ensures c == 0 <==> weeks == other.weeks
      ensures c == 1 <==> weeks > other.weeks
    {
      CompareInts(weeks, other.weeks)
    }

    function IsGreaterThan(other: Weeks): (b: bool)
      ensures b <==> weeks > other.weeks
    {
      CompareTo(other) > 0
    }

    function IsLessThan(other: Weeks): (b: bool)
      ensures b <==> weeks < other.weeks
    {
      CompareTo(other) < 0
    }

    /** `equals`: the same number of weeks. */
    function Equals(other: Weeks): (b: bool)
      ensures b <==> this == other
    {
      weeks == other.weeks
    }

    /** `hashCode`: the number of weeks itself. */
    function HashCode(): (h: int32)
      ensures h == GetWeeks()
    {
      weeks
    }

    /** `plus(int)`: adding zero returns this period; otherwise the exact sum, or `Overflow`. */
    function Plus(amount: int32): (r: Result<Weeks, ArithmeticError>)
      ensures r.Ok? <==> InRange(weeks + amount)
      ensures r.Ok? ==> r.value.weeks == weeks + amount
      ensures r.Err? ==> r.error == Overflow
      ensures amount == 0 ==> r == Ok(this)
    {
      if amount == 0 then Ok(this)
      else match SafeAdd(weeks, amount)
        case Ok(sum) => Ok(Of(sum))
        case Err(e) => Err(e)
    }

    /** `plus(Weeks)`: the exact sum, or `Overflow`. */
    function PlusWeeks(other: Weeks): (r: Result<Weeks, ArithmeticError>)
      ensures r.Ok? <==> InRange(weeks + other.weeks)
      ensures r.Ok? ==> r.value.weeks == weeks + other.weeks
      ensures r.Err? ==> r.error == Overflow
    {
      match SafeAdd(weeks, other.weeks)
      case Ok(sum) => Ok(Of(sum))
      case Err(e) => Err(e)
    }

    /** `minus(int)`: the exact difference, or `Overflow`. */
    function Minus(amount: int32): (r: Result<Weeks, ArithmeticError>)
      ensures r.Ok? <==> InRange(weeks - amount)
      ensures r.Ok? ==> r.value.weeks == weeks - amount
      ensures r.Err? ==> r.error == Overflow
    {
      match SafeSubtract(weeks, amount)
      case Ok(difference) => Ok(Of(difference))
      case Err(e) => Err(e)
    }

    /** `minus(Weeks)`: the exact difference, or `Overflow`. */
    function MinusWeeks(other: Weeks): (r: Result<Weeks, ArithmeticError>)
      ensures r.Ok? <==> InRange(weeks - other.weeks)
      ensures r.Ok? ==> r.value.weeks == weeks - other.weeks
      ensures r.Err? ==> r.error == Overflow
    {
      match SafeSubtract(weeks, other.weeks)
      case Ok(difference) => Ok(Of(difference))
      case Err(e) => Err(e)
    }

    /** `multipliedBy`: the exact product, or `Overflow`. */
    function MultipliedBy(scalar: int32): (r: Result<Weeks, ArithmeticError>)
      ensures r.Ok? <==> InRange(weeks * scalar)
      ensures r.Ok? ==> r.value.weeks == weeks * scalar
      ensures r.Err? ==> r.error == Overflow
    {
      match SafeMultiply(weeks, scalar)
      case Ok(product) => Ok(Of(product))
      case Err(e) => Err(e)
    }

    /**
     * `dividedBy`, as written: dividing by one returns this period, dividing by
     * zero fails, and otherwise Java's `/` rounds toward zero, so that the
     * minimum `int` divided by -1 wraps round to the minimum `int`.
     */
    function DividedBy(divisor: int32): (r: Result<Weeks, ArithmeticError>)
      ensures r.Err? <==> divisor == 0
      ensures r.Err? ==> r.error == DivisionByZero
      ensures r.Ok? && !DivisionOverflows(weeks, divisor) ==> IsTruncatedQuotient(weeks, divisor, r.value.weeks)
      ensures DivisionOverflows(weeks, divisor) ==> r == Ok(Weeks(MIN_VALUE))
      ensures divisor == 1 ==> r == Ok(this)
    {
      if divisor == 1 then Ok(this)
      else if divisor == 0 then Err(DivisionByZero)
      else Ok(Of(JavaDivide(weeks, divisor)))
    }

    /**
     * `dividedBy` as its documentation and its siblings lead one to expect:
     * the rounded quotient, or an `ArithmeticException` when it does not fit.
     */
    function DividedByChecked(divisor: int32): (r: Result<Weeks, ArithmeticError>)
      ensures r.Ok? <==> divisor != 0 && !DivisionOverflows(weeks, divisor)
      ensures r.Ok? ==> IsTruncatedQuotient(weeks, divisor, r.value.weeks)
      ensures divisor == 0 ==> r == Err(DivisionByZero)
      ensures DivisionOverflows(weeks, divisor) ==> r == Err(Overflow)
    {
      if divisor == 0 then Err(DivisionByZero)
      else if DivisionOverflows(weeks, divisor) then Err(Overflow)
      else DividedBy(divisor)
    }

    /** `negated`: the opposite period, or `Overflow` for the minimum `int`. */
    function Negated(): (r: Result<Weeks, ArithmeticError>)
      ensures r.Ok? <==> weeks != MIN_VALUE
      ensures r.Ok? ==> r.value.weeks == -weeks
      ensures r.Err? ==> r.error == Overflow
    {
      match SafeNegate(weeks)
      case Ok(negation) => Ok(Of(negation))
      case Err(e) => Err(e)
    }

    /** `toString`: "P", the number of weeks in decimal, then "W". */
    function ToString(): (s: string)
      ensures |s| >= 3 && s[..1] == "P" && s[|s| - 1] == 'W'
      ensures Decimal.ParseInt(s[1..|s| - 1]) == Some(weeks)
      ensures Decimal.Canonical(s[1..|s| - 1])
    {
      var digits := Decimal.IntToString(weeks);
      var s := "P" + digits + "W";
      assert s[1..|s| - 1] == digits;
      s
    }
  }

  /** `compareTo` is antisymmetric and agrees with `equals`. */
  lemma CompareToAntisymmetric(a: Weeks, b: Weeks)
    ensures a.CompareTo(b) == -b.CompareTo(a)
    ensures a.CompareTo(b) == 0 <==> a.Equals(b)
  {
  }

  /** Equal periods have equal hash codes. */
  lemma EqualsHashCode(a: Weeks, b: Weeks)
    requires a.Equals(b)
    ensures a.HashCode() == b.HashCode()
  {
  }

  /** Subtracting what was added gives back the original period. */
  lemma PlusThenMinus(m: Weeks, amount: int32)
    requires m.Plus(amount).Ok?
    ensures m.Plus(amount).value.Minus(amount) == Ok(m)
  {
  }

  /** Negating twice gives back the original period. */
  lemma NegatedTwice(m: Weeks)
    requires m.Negated().Ok?
    ensures m.Negated().value.Negated() == Ok(m)
  {
  }

  /** Multiplying by -1 negates, failing exactly where `negated` fails. */
  lemma MultipliedByMinusOne(m: Weeks)
    ensures m.MultipliedBy(-1) == m.Negated()
  {
  }

  /** As written, dividing the minimum by -1 returns the minimum, where `negated` fails. */
  lemma DividedByMinusOneWraps()
    ensures Weeks(MIN_VALUE).DividedBy(-1) == Ok(Weeks(MIN_VALUE))
    ensures Weeks(MIN_VALUE).Negated() == Err(Overflow)
  {
  }

  /** With the overflow check, dividing by -1 is negation for every period. */
  lemma DividedByCheckedMinusOne(m: Weeks)
    ensures m.DividedByChecked(-1) == m.Negated()
  {
  }

  /** Integer division rounds toward zero: 3 / 2 is 1 and -3 / 2 is -1. */
  lemma DividedByRoundsTowardZero()
    ensures Weeks(3).DividedBy(2) == Ok(Weeks(1))
    ensures Weeks(-3).DividedBy(2) == Ok(Weeks(-1))
  {
  }
}

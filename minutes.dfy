/**
 * `Minutes` (Minutes.java): an immutable period holding a number of minutes
 * in a Java `int`, with overflow-checked arithmetic.
 */
module MinutesPeriod {
  import opened Results
  import opened JavaInt
  import Decimal

  /** The period of zero minutes (the `ZERO` singleton). */
  const ZERO: Minutes := Minutes(0)

  /** `Minutes.minutes(n)`: the period of `n` minutes. */
  function Of(n: int32): (m: Minutes)
    ensures m.minutes == n
  {
    if n == 0 then ZERO else Minutes(n)
  }

  /** A period of a whole number of minutes. */
  datatype Minutes = Minutes(minutes: int32) {

    /** `getMinutes`: the amount, which the factory turns back into this period. */
    function GetMinutes(): (n: int32)
      ensures Of(n) == this
    {
      minutes
    }

    /** Three-way comparison by the number of minutes. */
    function CompareTo(other: Minutes): (c: int)
      ensures c == -1 <==> minutes < other.minutes
      ensures c == 0 <==> minutes == other.minutes
      ensures c == 1 <==> minutes > other.minutes
    {
      CompareInts(minutes, other.minutes)
    }

    function IsGreaterThan(other: Minutes): (b: bool)
      ensures b <==> minutes > other.minutes
    {
      CompareTo(other) > 0
    }

    function IsLessThan(other: Minutes): (b: bool)
      ensures b <==> minutes < other.minutes
    {
      CompareTo(other) < 0
    }

    /** `equals`: the same number of minutes. */
    function Equals(other: Minutes): (b: bool)
      ensures b <==> this == other
    {
      minutes == other.minutes
    }

    /** `hashCode`: the number of minutes itself. */
    function HashCode(): (h: int32)
      ensures h == GetMinutes()
    {
      minutes
    }

    /** `plus(int)`: adding zero returns this period; otherwise the exact sum, or `Overflow`. */
    function Plus(amount: int32): (r: Result<Minutes, ArithmeticError>)
      ensures r.Ok? <==> InRange(minutes + amount)
      ensures r.Ok? ==> r.value.minutes == minutes + amount
      ensures r.Err? ==> r.error == Overflow
      ensures amount == 0 ==> r == Ok(this)
    {
      if amount == 0 then Ok(this)
      else match SafeAdd(minutes, amount)
        case Ok(sum) => Ok(Of(sum))
        case Err(e) => Err(e)
    }

    /** `plus(Minutes)`: the exact sum, or `Overflow`. */
    function PlusMinutes(other: Minutes): (r: Result<Minutes, ArithmeticError>)
      ensures r.Ok? <==> InRange(minutes + other.minutes)
      ensures r.Ok? ==> r.value.minutes == minutes + other.minutes
      ensures r.Err? ==> r.error == Overflow
    {
      match SafeAdd(minutes, other.minutes)
      case Ok(sum) => Ok(Of(sum))
      case Err(e) => Err(e)
    }

    /** `minus(int)`: the exact difference, or `Overflow`. */
    function Minus(amount: int32): (r: Result<Minutes, ArithmeticError>)
      ensures r.Ok? <==> InRange(minutes - amount)
      ensures r.Ok? ==> r.value.minutes == minutes - amount
      ensures r.Err? ==> r.error == Overflow
    {
      match SafeSubtract(minutes, amount)
      case Ok(difference) => Ok(Of(difference))
      case Err(e) => Err(e)
    }

    /** `minus(Minutes)`: the exact difference, or `Overflow`. */
    function MinusMinutes(other: Minutes): (r: Result<Minutes, ArithmeticError>)
      ensures r.Ok? <==> InRange(minutes - other.minutes)
      ensures r.Ok? ==> r.value.minutes == minutes - other.minutes
      ensures r.Err? ==> r.error == Overflow
    {
      match SafeSubtract(minutes, other.minutes)
      case Ok(difference) => Ok(Of(difference))
      case Err(e) => Err(e)
    }

    /** `multipliedBy`: the exact product, or `Overflow`. */
    function MultipliedBy(scalar: int32): (r: Result<Minutes, ArithmeticError>)
      ensures r.Ok? <==> InRange(minutes * scalar)
      ensures r.Ok? ==> r.value.minutes == minutes * scalar
      ensures r.Err? ==> r.error == Overflow
    {
      match SafeMultiply(minutes, scalar)
      case Ok(product) => Ok(Of(product))
      case Err(e) => Err(e)
    }

    /**
     * `dividedBy`, as written: dividing by one returns this period, dividing by
     * zero fails, and otherwise Java's `/` rounds toward zero, so that the
     * minimum `int` divided by -1 wraps round to the minimum `int`.
     */
    function DividedBy(divisor: int32): (r: Result<Minutes, ArithmeticError>)
      ensures r.Err? <==> divisor == 0
      ensures r.Err? ==> r.error == DivisionByZero
      ensures r.Ok? && !DivisionOverflows(minutes, divisor) ==> IsTruncatedQuotient(minutes, divisor, r.value.minutes)
      ensures DivisionOverflows(minutes, divisor) ==> r == Ok(Minutes(MIN_VALUE))
      ensures divisor == 1 ==> r == Ok(this)
    {
      if divisor == 1 then Ok(this)
      else if divisor == 0 then Err(DivisionByZero)
      else Ok(Of(JavaDivide(minutes, divisor)))
    }

    /**
     * `dividedBy` as its documentation and its siblings lead one to expect:
     * the rounded quotient, or an `ArithmeticException` when it does not fit.
     */
    function DividedByChecked(divisor: int32): (r: Result<Minutes, ArithmeticError>)
      ensures r.Ok? <==> divisor != 0 && !DivisionOverflows(minutes, divisor)
      ensures r.Ok? ==> IsTruncatedQuotient(minutes, divisor, r.value.minutes)
      ensures divisor == 0 ==> r == Err(DivisionByZero)
      ensures DivisionOverflows(minutes, divisor) ==> r == Err(Overflow)
    {
      if divisor == 0 then Err(DivisionByZero)
      else if DivisionOverflows(minutes, divisor) then Err(Overflow)
      else DividedBy(divisor)
    }

    /** `negated`: the opposite period, or `Overflow` for the minimum `int`. */
    function Negated(): (r: Result<Minutes, ArithmeticError>)
      ensures r.Ok? <==> minutes != MIN_VALUE
      ensures r.Ok? ==> r.value.minutes == -minutes
      ensures r.Err? ==> r.error == Overflow
    {
      match SafeNegate(minutes)
      case Ok(negation) => Ok(Of(negation))
      case Err(e) => Err(e)
    }

    /** `toString`: "PT", the number of minutes in decimal, then "M". */
    function ToString(): (s: string)
      ensures |s| >= 4 && s[..2] == "PT" && s[|s| - 1] == 'M'
      ensures Decimal.ParseInt(s[2..|s| - 1]) == Some(minutes)
      ensures Decimal.Canonical(s[2..|s| - 1])
    {
      var digits := Decimal.IntToString(minutes);
      var s := "PT" + digits + "M";
      assert s[2..|s| - 1] == digits;
      s
    }
  }

  /** `compareTo` is antisymmetric and agrees with `equals`. */
  lemma CompareToAntisymmetric(a: Minutes, b: Minutes)
    ensures a.CompareTo(b) == -b.CompareTo(a)
    ensures a.CompareTo(b) == 0 <==> a.Equals(b)
  {
  }

  /** Equal periods have equal hash codes. */
  lemma EqualsHashCode(a: Minutes, b: Minutes)
    requires a.Equals(b)
    ensures a.HashCode() == b.HashCode()
  {
  }

  /** Subtracting what was added gives back the original period. */
  lemma PlusThenMinus(m: Minutes, amount: int32)
    requires m.Plus(amount).Ok?
    ensures m.Plus(amount).value.Minus(amount) == Ok(m)
  {
  }

  /** Negating twice gives back the original period. */
  lemma NegatedTwice(m: Minutes)
    requires m.Negated().Ok?
    ensures m.Negated().value.Negated() == Ok(m)
  {
  }

  /** Multiplying by -1 negates, failing exactly where `negated` fails. */
  lemma MultipliedByMinusOne(m: Minutes)
    ensures m.MultipliedBy(-1) == m.Negated()
  {
  }

  /** As written, dividing the minimum by -1 returns the minimum, where `negated` fails. */
  lemma DividedByMinusOneWraps()
    ensures Minutes(MIN_VALUE).DividedBy(-1) == Ok(Minutes(MIN_VALUE))
    ensures Minutes(MIN_VALUE).Negated() == Err(Overflow)
  {
  }

  /** With the overflow check, dividing by -1 is negation for every period. */
  lemma DividedByCheckedMinusOne(m: Minutes)
    ensures m.DividedByChecked(-1) == m.Negated()
  {
  }

  /** Integer division rounds toward zero: 3 / 2 is 1 and -3 / 2 is -1. */
  lemma DividedByRoundsTowardZero()
    ensures Minutes(3).DividedBy(2) == Ok(Minutes(1))
    ensures Minutes(-3).DividedBy(2) == Ok(Minutes(-1))
  {
  }
}

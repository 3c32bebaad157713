/**
 * Java `int` arithmetic: the 32-bit range, the overflow-checked operations of
 * `MathUtils` (`safeAdd`, `safeSubtract`, `safeMultiply`, `safeNegate`), Java's
 * truncating `/` and the three-way comparison used by every `compareTo`.
 */
module JavaInt {
  import opened Results

  const MIN_VALUE: int := -0x8000_0000
  const MAX_VALUE: int := 0x7FFF_FFFF

  /** Whether `x` fits in a Java `int`. */
  predicate InRange(x: int) {
    MIN_VALUE <= x <= MAX_VALUE
  }

  /** A Java `int`: a 32-bit two's-complement integer. */
  type int32 = x: int | MIN_VALUE <= x <= MAX_VALUE

  /** The `ArithmeticException`s the period types throw. */
  datatype ArithmeticError = Overflow | DivisionByZero

  function Abs(x: int): nat {
    if x < 0 then -x else x
  }

  /** Two's-complement wrap-around of an unbounded integer into the `int` range. */
  function Wrap(x: int): (r: int32)
    ensures InRange(x) ==> r == x
    ensures (r - x) % 0x1_0000_0000 == 0
  {
    var m := x % 0x1_0000_0000;
    if m <= MAX_VALUE then m else m - 0x1_0000_0000
  }

  /** `MathUtils.safeAdd`: the exact sum, or `Overflow` when it leaves the `int` range. */
  function SafeAdd(a: int32, b: int32): (r: Result<int32, ArithmeticError>)
    ensures r.Ok? <==> InRange(a + b)
    ensures r.Ok? ==> r.value == a + b
    ensures r.Err? ==> r.error == Overflow
  {
    if InRange(a + b) then Ok(a + b) else Err(Overflow)
  }

  /** `MathUtils.safeSubtract`: the exact difference, or `Overflow`. */
  function SafeSubtract(a: int32, b: int32): (r: Result<int32, ArithmeticError>)
    ensures r.Ok? <==> InRange(a - b)
    ensures r.Ok? ==> r.value == a - b
    ensures r.Err? ==> r.error == Overflow
  {
    if InRange(a - b) then Ok(a - b) else Err(Overflow)
  }

  /** `MathUtils.safeMultiply`: the exact product, or `Overflow`. */
  function SafeMultiply(a: int32, b: int32): (r: Result<int32, ArithmeticError>)
    ensures r.Ok? <==> InRange(a * b)
    ensures r.Ok? ==> r.value == a * b
    ensures r.Err? ==> r.error == Overflow
  {
    if InRange(a * b) then Ok(a * b) else Err(Overflow)
  }

  /** `MathUtils.safeNegate`: the negation, or `Overflow` for the one `int` without one. */
  function SafeNegate(a: int32): (r: Result<int32, ArithmeticError>)
    ensures r.Ok? <==> a != MIN_VALUE
    ensures r.Ok? ==> r.value == -a
    ensures r.Err? ==> r.error == Overflow
  {
    if a == MIN_VALUE then Err(Overflow) else Ok(-a)
  }

  /**
   * `q` is the quotient of `a` by `b` rounded toward zero: the remainder
   * `a - q * b` is smaller than `b` in magnitude and is zero or has the sign of `a`.
   */
  predicate IsTruncatedQuotient(a: int, b: int, q: int) {
    var rem := a - q * b;
    Abs(rem) < Abs(b) && (rem == 0 || (rem < 0) == (a < 0))
  }

  /** Division rounding toward zero, on unbounded integers. */
  function TruncatedDivide(a: int, b: int): (q: int)
    requires b != 0
    ensures IsTruncatedQuotient(a, b, q)
    ensures Abs(q) <= Abs(a)
  {
    var q0 := Abs(a) / Abs(b);
    NaturalDivision(Abs(a), Abs(b));
    SignedRemainder(a, b, q0, Abs(a) % Abs(b));
    if (a < 0) == (b < 0) then q0 else -q0
  }

  lemma NaturalDivision(x: nat, y: nat)
    requires y > 0
    ensures x == x / y * y + x % y && 0 <= x % y < y
    ensures x / y <= x
  {
    var q, k := x / y, y - 1;
    assert q * y == q + q * k;
    assert q * k >= 0;
  }

  /** Restoring the signs of the operands to the quotient and remainder of their magnitudes. */
  lemma SignedRemainder(a: int, b: int, q0: int, r0: int)
    requires b != 0 && q0 >= 0 && r0 >= 0
    requires Abs(a) == q0 * Abs(b) + r0
    ensures var q := if (a < 0) == (b < 0) then q0 else -q0;
            a - q * b == if a < 0 then -r0 else r0
  {
    var y := Abs(b);
    if b < 0 {
      assert q0 * b == -(q0 * y);
      assert (-q0) * b == q0 * y;
    } else {
      assert (-q0) * b == -(q0 * y);
    }
  }

  /** The one `int` division whose true quotient does not fit in an `int`. */
  predicate DivisionOverflows(a: int32, b: int32) {
    a == MIN_VALUE && b == -1
  }

  /**
   * Java's `a / b` on `int`: rounds toward zero, and `MIN_VALUE / -1` silently
   * wraps to `MIN_VALUE` (the Java Language Specification, section 15.17.2).
   */
  function JavaDivide(a: int32, b: int32): (q: int32)
    requires b != 0
    ensures !DivisionOverflows(a, b) ==> IsTruncatedQuotient(a, b, q)
    ensures DivisionOverflows(a, b) ==> q == MIN_VALUE
  {
    var exact := TruncatedDivide(a, b);
    if DivisionOverflows(a, b) then
      assert exact == -MIN_VALUE;
      Wrap(exact)
    else
      assert InRange(exact) by { QuotientInRange(a, b, exact); }
      exact
  }

  /** Only `MIN_VALUE / -1` has a rounded quotient outside the `int` range. */
  lemma QuotientInRange(a: int32, b: int32, q: int)
    requires b != 0
    requires IsTruncatedQuotient(a, b, q) && Abs(q) <= Abs(a)
    ensures InRange(q) || DivisionOverflows(a, b)
  {
    if q == -MIN_VALUE {
      assert a == MIN_VALUE;
    }
  }

  /** The three-way comparison every `compareTo` of the period and field types performs. */
  function CompareInts(a: int, b: int): (c: int)
    ensures c == -1 <==> a < b
    ensures c == 0 <==> a == b
    ensures c == 1 <==> a > b
  {
    if a < b then -1 else if a == b then 0 else 1
  }
}

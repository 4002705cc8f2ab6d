/** Binary floating-point numbers (IEEE 754-2019, sections 3.3, 4.3.1 and 6.1): rounding to nearest, ties
    to even, with overflow and gradual underflow. Zero has no sign here: the only quotient computed has a
    divisor 1 + x, whose zero is positive. */
module Floats {

  datatype Float = NegInf | Fin(value: real) | PosInf | NaN

  const ZERO := Fin(0.0)

  /** A format: numbers below half are scaled up to it, at most deepest times; the integers from half to
      twice half are its significands; numbers above are scaled down, at most room times. */
  datatype Format = Format(half: int, deepest: nat, room: nat)

  /** binary64 (Go's float64) and binary32 (float32). */
  const DOUBLE := Format(0x10_0000_0000_0000, 1074, 971)
  const SINGLE := Format(0x80_0000, 149, 104)

  /** The nearest integer, the even one of two. */
  function Nearest(y: real): int {
    var f := y.Floor;
    if y - f as real < 0.5 || (y - f as real == 0.5 && f % 2 == 0) then f else f + 1
  }

  function Twice(a: Float): Float {
    if a.Fin? then Fin(2.0 * a.value) else a
  }

  /** Rounding a number of at least half, with so many doublings left before overflow. */
  function RoundUpper(half: int, x: real, room: nat): Float
    decreases room, x, half
  {
    if x < 2.0 * half as real then if Nearest(x) == 2 * half && room == 0 then PosInf else Fin(Nearest(x) as real)
    else if room == 0 then PosInf
    else Twice(RoundUpper(half, x / 2.0, room - 1))
  }

  /** Rounding a number below twice half. */
  function RoundLower(half: int, x: real, deepest: nat): real
    decreases deepest, x, half
  {
    if x >= half as real || deepest == 0 then Nearest(x) as real
    else RoundLower(half, 2.0 * x, deepest - 1) / 2.0
  }

  function RoundPositive(fmt: Format, x: real): Float {
    if x < 2.0 * fmt.half as real then Fin(RoundLower(fmt.half, x, fmt.deepest)) else RoundUpper(fmt.half, x, fmt.room)
  }

  function Negated(a: Float): Float {
    match a
    case NaN => NaN
    case NegInf => PosInf
    case PosInf => NegInf
    case Fin(v) => Fin(-v)
  }

  function RoundTo(fmt: Format, x: real): Float {
    if x >= 0.0 then RoundPositive(fmt, x) else Negated(RoundPositive(fmt, -x))
  }

  function Round(x: real): Float {
    RoundTo(DOUBLE, x)
  }

  // ---- Arithmetic and comparison ----

  function Add(a: Float, b: Float): Float {
    if a.NaN? || b.NaN? then NaN
    else if a.Fin? && b.Fin? then Round(a.value + b.value)
    else if a.Fin? then b
    else if b.Fin? || a == b then a
    else NaN
  }

  function Sign(a: Float): int {
    match a
    case NegInf => -1
    case PosInf => 1
    case NaN => 0
    case Fin(v) => if v < 0.0 then -1 else if v > 0.0 then 1 else 0
  }

  function Infinite(sign: int): Float {
    if sign > 0 then PosInf else if sign < 0 then NegInf else NaN
  }

  /** Exact products and quotients. */
  function Times(x: real, y: real): real {
    x * y
  }

  function Over(x: real, y: real): real
    requires y != 0.0
  {
    x / y
  }

  function Mul(a: Float, b: Float): Float {
    if a.NaN? || b.NaN? then NaN
    else if a.Fin? && b.Fin? then Round(Times(a.value, b.value))
    else Infinite(Sign(a) * Sign(b))
  }

  function Div(a: Float, b: Float): Float {
    if a.NaN? || b.NaN? then NaN
    else if a.Fin? && b.Fin? then if b.value == 0.0 then Infinite(Sign(a)) else Round(Over(a.value, b.value))
    else if a.Fin? then ZERO
    else if b.Fin? then Infinite(Sign(a) * (if b.value < 0.0 then -1 else 1))
    else NaN
  }

  /** a == b, false for NaN. */
  predicate Equal(a: Float, b: Float) {
    !a.NaN? && a == b
  }

  predicate Greater(a: Float, b: Float) {
    match a
    case NaN => false
    case NegInf => false
    case PosInf => !b.NaN? && !b.PosInf?
    case Fin(v) => b.NegInf? || (b.Fin? && v > b.value)
  }

  predicate AtMost(a: Float, b: Float) {
    Greater(b, a) || Equal(a, b)
  }

  /** The conversion of a float64 to a float32. */
  function Narrow(a: Float): Float {
    if a.Fin? then RoundTo(SINGLE, a.value) else a
  }

  // ---- Numbers with few digits are floats already ----

  /** x times two to the j. */
  function Lift(x: real, j: nat): real
    decreases j
  {
    if j == 0 then x else Lift(2.0 * x, j - 1)
  }

  lemma {:induction false} LiftAdds(x: real, y: real, j: nat)
    ensures Lift(x + y, j) == Lift(x, j) + Lift(y, j)
    decreases j
  {
    if j > 0 {
      LiftAdds(2.0 * x, 2.0 * y, j - 1);
    }
  }

  lemma {:induction false} LiftGrows(x: real, j: nat)
    requires x >= 0.0
    ensures Lift(x, j) >= x
    decreases j
  {
    if j > 0 {
      LiftGrows(2.0 * x, j - 1);
    }
  }

  predicate IsInteger(x: real) {
    x == x.Floor as real
  }

  lemma {:induction false} LowerExact(half: int, x: real, deepest: nat, j: nat)
    requires half >= 1 && j <= deepest && x >= 0.0 && IsInteger(Lift(x, j)) && Lift(x, j) < 2.0 * half as real
    ensures RoundLower(half, x, deepest) == x
    decreases deepest
  {
    if j > 0 {
      LiftGrows(2.0 * x, j - 1);
      LowerExact(half, 2.0 * x, deepest - 1, j - 1);
    } else if x < half as real && deepest > 0 {
      assert (2.0 * x).Floor == 2 * x.Floor;
      LowerExact(half, 2.0 * x, deepest - 1, 0);
    }
  }

  lemma {:induction false} LiftNegates(x: real, j: nat)
    ensures Lift(-x, j) == -Lift(x, j)
    decreases j
  {
    if j > 0 {
      LiftNegates(2.0 * x, j - 1);
      assert 2.0 * -x == -(2.0 * x);
    }
  }

  /** n over two to the j, with at most 53 digits in n. */
  predicate OnGrid(x: real, j: nat) {
    j <= 1074 && IsInteger(Lift(x, j))
  }

  function Size(x: real, j: nat): real {
    if Lift(x, j) < 0.0 then -Lift(x, j) else Lift(x, j)
  }

  const DIGITS := 0x20_0000_0000_0000

  lemma {:induction false} PositiveGridExact(x: real, j: nat)
    requires x >= 0.0 && OnGrid(x, j) && Lift(x, j) < DIGITS as real
    ensures Round(x) == Fin(x)
  {
    LiftGrows(x, j);
    LowerExact(DOUBLE.half, x, DOUBLE.deepest, j);
  }

  lemma {:induction false} RoundIsOdd(x: real)
    requires x > 0.0
    ensures Round(-x) == Negated(Round(x))
  {
    assert -(-x) == x;
  }

  lemma {:induction false} NegatedInteger(n: int, x: real)
    requires x == -(n as real)
    ensures IsInteger(x)
  {
    assert x == (-n) as real;
  }

  lemma {:induction false} GridExact(x: real, j: nat)
    requires OnGrid(x, j) && Size(x, j) < DIGITS as real
    ensures Round(x) == Fin(x)
  {
    if x >= 0.0 {
      LiftGrows(x, j);
      PositiveGridExact(x, j);
    } else {
      LiftNegates(x, j);
      LiftGrows(-x, j);
      NegatedInteger(Lift(x, j).Floor, Lift(-x, j));
      PositiveGridExact(-x, j);
      RoundIsOdd(-x);
    }
  }

  // ---- Rounding is monotone and idempotent ----

  lemma {:induction false} NearestOfInteger(n: int)
    ensures Nearest(n as real) == n
  {
  }

  lemma {:induction false} NearestMonotone(x: real, y: real)
    requires x <= y
    ensures Nearest(x) <= Nearest(y)
  {
  }

  lemma {:induction false} NearestAtLeast(n: int, x: real)
    requires n as real <= x
    ensures n <= Nearest(x)
  {
    NearestOfInteger(n);
    NearestMonotone(n as real, x);
  }

  lemma {:induction false} NearestAtMost(x: real, n: int)
    requires x <= n as real
    ensures Nearest(x) <= n
  {
    NearestOfInteger(n);
    NearestMonotone(x, n as real);
  }

  lemma {:induction false} LowerBounded(half: int, x: real, deepest: nat)
    requires half >= 1 && 0.0 <= x < 2.0 * half as real
    ensures 0.0 <= RoundLower(half, x, deepest) <= 2.0 * half as real
    decreases deepest
  {
    if x < half as real && deepest > 0 {
      LowerBounded(half, 2.0 * x, deepest - 1);
    } else {
      NearestAtLeast(0, x);
      NearestAtMost(x, 2 * half);
    }
  }

  lemma {:induction false} LowerMonotone(half: int, x: real, y: real, deepest: nat)
    requires half >= 1 && 0.0 <= x <= y < 2.0 * half as real
    ensures RoundLower(half, x, deepest) <= RoundLower(half, y, deepest)
    decreases deepest
  {
    if x < half as real && deepest > 0 {
      if y < half as real {
        LowerMonotone(half, 2.0 * x, 2.0 * y, deepest - 1);
      } else {
        LowerBounded(half, 2.0 * x, deepest - 1);
        NearestAtLeast(half, y);
      }
    } else {
      NearestMonotone(x, y);
    }
  }

  lemma {:induction false} UpperAtLeast(half: int, x: real, room: nat)
    requires half >= 1 && x >= half as real
    ensures RoundUpper(half, x, room).PosInf? ||
            (RoundUpper(half, x, room).Fin? && RoundUpper(half, x, room).value >= half as real)
    ensures x >= 2.0 * half as real && RoundUpper(half, x, room).Fin? ==>
              RoundUpper(half, x, room).value >= 2.0 * half as real
    decreases room
  {
    NearestAtLeast(half, x);
    if x >= 2.0 * half as real && room > 0 {
      UpperAtLeast(half, x / 2.0, room - 1);
    }
  }

  lemma {:induction false} UpperNear(half: int, x: real, y: real, room: nat)
    requires half >= 1 && half as real <= x <= y && x < 2.0 * half as real
    ensures AtMost(RoundUpper(half, x, room), RoundUpper(half, y, room))
  {
    NearestAtMost(x, 2 * half);
    NearestAtLeast(half, x);
    if y < 2.0 * half as real {
      NearestMonotone(x, y);
      NearestAtMost(y, 2 * half);
    } else {
      UpperAtLeast(half, y, room);
    }
  }

  lemma {:induction false} TwiceMonotone(a: Float, b: Float)
    requires AtMost(a, b)
    ensures AtMost(Twice(a), Twice(b))
  {
  }

  lemma {:induction false} UpperMonotone(half: int, x: real, y: real, room: nat)
    requires half >= 1 && half as real <= x <= y
    ensures AtMost(RoundUpper(half, x, room), RoundUpper(half, y, room))
    decreases room
  {
    if x < 2.0 * half as real {
      UpperNear(half, x, y, room);
    } else if room > 0 {
      UpperMonotone(half, x / 2.0, y / 2.0, room - 1);
      TwiceMonotone(RoundUpper(half, x / 2.0, room - 1), RoundUpper(half, y / 2.0, room - 1));
    }
  }

  lemma {:induction false} PositiveMonotone(fmt: Format, x: real, y: real)
    requires fmt.half >= 1 && 0.0 <= x <= y
    ensures AtMost(RoundPositive(fmt, x), RoundPositive(fmt, y)) && AtMost(ZERO, RoundPositive(fmt, x))
  {
    var top := 2.0 * fmt.half as real;
    if x < top {
      LowerBounded(fmt.half, x, fmt.deepest);
    } else {
      UpperAtLeast(fmt.half, x, fmt.room);
    }
    if y < top {
      LowerMonotone(fmt.half, x, y, fmt.deepest);
    } else if x < top {
      UpperAtLeast(fmt.half, y, fmt.room);
    } else {
      UpperMonotone(fmt.half, x, y, fmt.room);
    }
  }

  lemma {:induction false} RoundMonotone(x: real, y: real)
    requires 0.0 <= x <= y
    ensures AtMost(Round(x), Round(y)) && AtMost(ZERO, Round(x))
  {
    PositiveMonotone(DOUBLE, x, y);
  }

  lemma {:induction false} NegatedReverses(a: Float, b: Float)
    requires AtMost(a, b)
    ensures AtMost(Negated(b), Negated(a))
  {
  }

  lemma {:induction false} AtMostTransitive(a: Float, b: Float, c: Float)
    requires AtMost(a, b) && AtMost(b, c)
    ensures AtMost(a, c)
  {
  }

  lemma {:induction false} NegativeAtMostZero(fmt: Format, x: real)
    requires fmt.half >= 1 && x < 0.0
    ensures AtMost(RoundTo(fmt, x), ZERO)
  {
    PositiveMonotone(fmt, -x, -x);
    NegatedReverses(ZERO, RoundPositive(fmt, -x));
  }

  /** Rounding never turns two numbers round. */
  lemma {:induction false} RoundToMonotone(fmt: Format, x: real, y: real)
    requires fmt.half >= 1 && x <= y
    ensures AtMost(RoundTo(fmt, x), RoundTo(fmt, y))
  {
    if x >= 0.0 {
      PositiveMonotone(fmt, x, y);
    } else if y < 0.0 {
      PositiveMonotone(fmt, -y, -x);
      NegatedReverses(RoundPositive(fmt, -y), RoundPositive(fmt, -x));
    } else {
      NegativeAtMostZero(fmt, x);
      PositiveMonotone(fmt, y, y);
      AtMostTransitive(RoundTo(fmt, x), ZERO, RoundTo(fmt, y));
    }
  }

  lemma {:induction false} NarrowMonotone(a: Float, b: Float)
    requires AtMost(a, b)
    ensures AtMost(Narrow(a), Narrow(b))
  {
    if a.Fin? && b.Fin? {
      RoundToMonotone(SINGLE, a.value, b.value);
    } else if a.Fin? {
      RoundToMonotone(SINGLE, a.value, a.value);
      NarrowIsNumber(a.value);
    } else if b.Fin? {
      NarrowIsNumber(b.value);
    }
  }

  lemma {:induction false} NarrowIsNumber(x: real)
    ensures !RoundTo(SINGLE, x).NaN?
  {
    RoundToMonotone(SINGLE, x, x);
  }

  lemma {:induction false} LowerOfHalf(half: int, w: real, deepest: nat)
    requires w < 2.0 * half as real && deepest > 0
    ensures RoundLower(half, w / 2.0, deepest) == RoundLower(half, w, deepest - 1) / 2.0
  {
    assert 2.0 * (w / 2.0) == w;
  }

  lemma {:induction false} LowerOfInteger(half: int, n: int, deepest: nat)
    requires n >= half || deepest == 0
    ensures RoundLower(half, n as real, deepest) == n as real
  {
    NearestOfInteger(n);
  }

  lemma {:induction false} LowerIdempotent(half: int, x: real, deepest: nat)
    requires half >= 1 && 0.0 <= x < 2.0 * half as real
    ensures var v := RoundLower(half, x, deepest);
            v < 2.0 * half as real ==> RoundLower(half, v, deepest) == v
    decreases deepest
  {
    if x < half as real && deepest > 0 {
      var w := RoundLower(half, 2.0 * x, deepest - 1);
      LowerBounded(half, 2.0 * x, deepest - 1);
      LowerIdempotent(half, 2.0 * x, deepest - 1);
      if w < 2.0 * half as real {
        LowerOfHalf(half, w, deepest);
      } else {
        LowerOfInteger(half, half, deepest);
      }
    } else {
      NearestAtLeast(if x >= half as real then half else 0, x);
      LowerOfInteger(half, Nearest(x), deepest);
    }
  }

  lemma {:induction false} UpperOfTop(half: int, room: nat)
    requires half >= 1 && room > 0
    ensures RoundUpper(half, 2.0 * half as real, room) == Fin(2.0 * half as real)
  {
    NearestOfInteger(half);
    assert (2.0 * half as real) / 2.0 == half as real;
    assert RoundUpper(half, half as real, room - 1) == Fin(half as real);
  }

  lemma {:induction false} UpperOfDouble(half: int, v: real, room: nat)
    requires v >= half as real && room > 0
    ensures RoundUpper(half, 2.0 * v, room) == Twice(RoundUpper(half, v, room - 1))
  {
    assert (2.0 * v) / 2.0 == v;
  }

  lemma {:induction false} UpperOfInteger(half: int, n: int, room: nat)
    requires half >= 1 && half <= n <= 2 * half && (n == 2 * half ==> room > 0)
    ensures RoundUpper(half, n as real, room) == Fin(n as real)
  {
    NearestOfInteger(n);
    if n == 2 * half {
      UpperOfTop(half, room);
    }
  }

  lemma {:induction false} UpperIdempotent(half: int, x: real, room: nat)
    requires half >= 1 && x >= half as real && RoundUpper(half, x, room).Fin?
    ensures RoundUpper(half, RoundUpper(half, x, room).value, room) == RoundUpper(half, x, room)
    decreases room
  {
    if x < 2.0 * half as real {
      NearestAtLeast(half, x);
      NearestAtMost(x, 2 * half);
      UpperOfInteger(half, Nearest(x), room);
    } else {
      UpperIdempotent(half, x / 2.0, room - 1);
      UpperAtLeast(half, x / 2.0, room - 1);
      UpperOfDouble(half, RoundUpper(half, x / 2.0, room - 1).value, room);
    }
  }

  lemma {:induction false} RoundIdempotent(x: real)
    requires x >= 0.0 && Round(x).Fin?
    ensures Round(Round(x).value) == Round(x)
  {
    var half, top := DOUBLE.half, 2.0 * DOUBLE.half as real;
    if x < top {
      LowerBounded(half, x, DOUBLE.deepest);
      var v := RoundLower(half, x, DOUBLE.deepest);
      LowerIdempotent(half, x, DOUBLE.deepest);
      UpperOfTop(half, DOUBLE.room);
    } else {
      UpperIdempotent(half, x, DOUBLE.room);
      UpperAtLeast(half, x, DOUBLE.room);
    }
  }

  // ---- Evaluating a rounding ----

  lemma {:induction false} LiftInjective(x: real, y: real, j: nat)
    requires Lift(x, j) == Lift(y, j)
    ensures x == y
    decreases j
  {
    if j > 0 {
      LiftInjective(2.0 * x, 2.0 * y, j - 1);
    }
  }

  /** y is nearest to n, ties to even. */
  predicate Near(y: real, n: int) {
    n as real - 0.5 < y < n as real + 0.5 || (n % 2 == 0 && n as real - 0.5 <= y <= n as real + 0.5)
  }

  lemma {:induction false} NearestIs(y: real, n: int)
    requires Near(y, n)
    ensures Nearest(y) == n
  {
  }

  lemma {:induction false} LowerIs(half: int, x: real, deepest: nat, k: nat, n: int)
    requires half >= 1 && x >= 0.0 && k <= deepest && half as real <= Lift(x, k) < 2.0 * half as real && Near(Lift(x, k), n)
    ensures Lift(RoundLower(half, x, deepest), k) == n as real
    decreases k
  {
    if k == 0 {
      NearestIs(x, n);
    } else {
      LiftGrows(2.0 * x, k - 1);
      LowerIs(half, 2.0 * x, deepest - 1, k - 1, n);
      var w := RoundLower(half, 2.0 * x, deepest - 1);
      assert 2.0 * (w / 2.0) == w;
    }
  }

  function PowTwo(k: nat): real {
    if k == 0 then 1.0 else 2.0 * PowTwo(k - 1)
  }

  lemma {:induction false} Regroup(x: real, p: real)
    ensures (2.0 * x) * p == x * (2.0 * p)
  {
  }

  lemma {:induction false} LiftScales(x: real, k: nat)
    ensures Lift(x, k) == x * PowTwo(k)
    decreases k
  {
    if k > 0 {
      LiftScales(2.0 * x, k - 1);
      Regroup(x, PowTwo(k - 1));
    }
  }

  lemma {:induction false} PowTwoTimes1024(k: nat)
    ensures PowTwo(k + 10) == 1024.0 * PowTwo(k)
  {
    if k > 0 {
      PowTwoTimes1024(k - 1);
    } else {
      assert PowTwo(5) == 32.0;
      assert PowTwo(10) == 1024.0;
    }
  }

  lemma PowersOfTwo()
    ensures PowTwo(41) == 2199023255552.0 && PowTwo(42) == 4398046511104.0 && PowTwo(43) == 8796093022208.0
    ensures PowTwo(52) == 4503599627370496.0 && PowTwo(53) == 9007199254740992.0 && PowTwo(54) == 18014398509481984.0
  {
    assert PowTwo(1) == 2.0 && PowTwo(2) == 4.0 && PowTwo(3) == 8.0 && PowTwo(4) == 16.0;
    PowTwoTimes1024(1);
    PowTwoTimes1024(11);
    PowTwoTimes1024(21);
    PowTwoTimes1024(31);
    PowTwoTimes1024(2);
    PowTwoTimes1024(12);
    PowTwoTimes1024(22);
    PowTwoTimes1024(32);
    PowTwoTimes1024(42);
  }

  lemma {:induction false} RoundsToLifted(x: real, k: nat, n: int, v: real)
    requires x >= 0.0 && k <= 1074 && DOUBLE.half as real <= Lift(x, k) < 2.0 * DOUBLE.half as real
    requires Near(Lift(x, k), n) && Lift(v, k) == n as real
    ensures Round(x) == Fin(v)
  {
    LiftGrows(x, k);
    LowerIs(DOUBLE.half, x, DOUBLE.deepest, k, n);
    LiftInjective(RoundLower(DOUBLE.half, x, DOUBLE.deepest), v, k);
  }

  lemma {:induction false} LiftIs(x: real, k: nat, p: real, y: real)
    requires p == PowTwo(k) && y == x * p
    ensures Lift(x, k) == y
  {
    LiftScales(x, k);
  }

  /** A number with 53 digits before the point after k doublings rounds to the integer nearest there. */
  lemma {:induction false} RoundsTo(x: real, k: nat, p: real, n: int, v: real)
    requires x >= 0.0 && k <= 1074 && p == PowTwo(k) && DOUBLE.half as real <= x * p < 2.0 * DOUBLE.half as real
    requires Near(x * p, n) && v * p == n as real
    ensures Round(x) == Fin(v)
  {
    var y := x * p;
    LiftIs(x, k, p, y);
    LiftIs(v, k, p, n as real);
    RoundsToLifted(x, k, n, v);
  }
}

/**
  Java's fixed-width integer arithmetic over Dafny's unbounded integers:
  the primitive types `short`, `int` and `long`, two's-complement
  wrap-around of `long` multiplication and subtraction, the narrowing
  `(int)` cast, and the truncating `/` and `%` of the Java Language
  Specification (sections 15.17.2 and 15.17.3).
 */
module JavaArith {

  const TWO_32: int := 0x1_0000_0000
  const TWO_64: int := 0x1_0000_0000_0000_0000

  const SHORT_MIN: int := -0x8000
  const SHORT_MAX: int := 0x7FFF
  const INT_MIN: int := -0x8000_0000
  const INT_MAX: int := 0x7FFF_FFFF
  const LONG_MIN: int := -0x8000_0000_0000_0000
  const LONG_MAX: int := 0x7FFF_FFFF_FFFF_FFFF

  /** Java `short` */
  type Int16 = x: int | SHORT_MIN <= x <= SHORT_MAX
  /** Java `int` */
  type Int32 = x: int | INT_MIN <= x <= INT_MAX
  /** Java `long` */
  type Int64 = x: int | LONG_MIN <= x <= LONG_MAX

  function Abs(x: int): (r: nat)
    ensures r == x || r == -x
  {
    if x < 0 then -x else x
  }

  /** The `long` that a mathematical integer wraps to: the unique value of
      the range congruent to it modulo 2^64. */
  function Wrap64(x: int): (r: Int64)
    ensures LONG_MIN <= x <= LONG_MAX ==> r == x
    ensures (x - r) % TWO_64 == 0
  {
    var m := x % TWO_64;
    if m <= LONG_MAX then m else m - TWO_64
  }

  /** The `int` that a mathematical integer wraps to (the `(int)` cast of a
      `long`, section 5.1.3 of the JLS). */
  function Wrap32(x: int): (r: Int32)
    ensures INT_MIN <= x <= INT_MAX ==> r == x
    ensures (x - r) % TWO_32 == 0
  {
    var m := x % TWO_32;
    if m <= INT_MAX then m else m - TWO_32
  }

  /** Euclidean division by a positive divisor brackets the dividend. */
  lemma DivBracket(a: nat, b: nat)
    requires b > 0
    ensures (a / b) * b <= a < (a / b + 1) * b
    ensures a / b >= 0
    ensures 0 <= a % b < b && a == (a / b) * b + a % b
  {
    assert (a / b + 1) * b == (a / b) * b + b;
  }

  /** Java's integer quotient: rounds toward zero. */
  function Quot(n: int, d: int): (q: int)
    requires d != 0
    ensures Abs(q) * Abs(d) <= Abs(n) < (Abs(q) + 1) * Abs(d)
    ensures q != 0 ==> ((q > 0) <==> ((n > 0) == (d > 0)))
  {
    var a, b := Abs(n), Abs(d);
    DivBracket(a, b);
    var m := a / b;
    if (n < 0) == (d < 0) then m else -m
  }

  /** Java's integer remainder: takes the sign of the dividend. */
  function Rem(n: int, d: int): (r: int)
    requires d != 0
    ensures Abs(r) < Abs(d)
    ensures r != 0 ==> ((r > 0) <==> (n > 0))
  {
    var a, b := Abs(n), Abs(d);
    DivBracket(a, b);
    var m := a % b;
    if n < 0 then -m else m
  }

  /** Negation moves out of a product. */
  lemma MulNeg(x: int, y: int)
    ensures x * -y == -(x * y) && -x * y == -(x * y) && -x * -y == x * y
  {
  }

  /** The identity that ties `/` to `%` (section 15.17.3 of the JLS). */
  lemma QuotRem(n: int, d: int)
    requires d != 0
    ensures Quot(n, d) * d + Rem(n, d) == n
  {
    var a: int, b: int := Abs(n), Abs(d);
    DivBracket(a, b);
    var m: int, r: int := a / b, a % b;
    assert m * b + r == a;
    MulNeg(m, b);
    if n < 0 && d < 0 {
      assert Quot(n, d) == m && d == -b && Rem(n, d) == -r;
      calc {
        Quot(n, d) * d + Rem(n, d);
        m * -b + -r;
        -(m * b) - r;
        -a;
      }
    } else if n < 0 {
      assert Quot(n, d) == -m && d == b && Rem(n, d) == -r;
      calc {
        Quot(n, d) * d + Rem(n, d);
        -m * b + -r;
        -(m * b) - r;
        -a;
      }
    } else if d < 0 {
      assert Quot(n, d) == -m && d == -b && Rem(n, d) == r;
      calc {
        Quot(n, d) * d + Rem(n, d);
        -m * -b + r;
        m * b + r;
        a;
      }
    } else {
      assert Quot(n, d) == m && d == b && Rem(n, d) == r;
    }
  }

  /** `a * b` on `long`: the exact product when it fits, and otherwise the
      value congruent to it modulo 2^64. */
  function Mul64(a: Int64, b: Int64): (r: Int64)
    ensures LONG_MIN <= a * b <= LONG_MAX ==> r == a * b
    ensures (a * b - r) % TWO_64 == 0
  {
    Wrap64(a * b)
  }

  /** `a - b` on `long`: the exact difference when it fits, and otherwise
      the value congruent to it modulo 2^64. */
  function Sub64(a: Int64, b: Int64): (r: Int64)
    ensures LONG_MIN <= a - b <= LONG_MAX ==> r == a - b
    ensures (a - b - r) % TWO_64 == 0
  {
    Wrap64(a - b)
  }

  /** `a / b` on `long`: the truncated quotient, except that
      `Long.MIN_VALUE / -1` wraps back to `Long.MIN_VALUE`. */
  function Div64(a: Int64, b: Int64): (r: Int64)
    requires b != 0
    ensures a == LONG_MIN && b == -1 ==> r == LONG_MIN
    ensures !(a == LONG_MIN && b == -1) ==> r == Quot(a, b)
  {
    QuotFits(a, b);
    Wrap64(Quot(a, b))
  }

  /** Only `Long.MIN_VALUE / -1` leaves the range of `long`. */
  lemma QuotFits(a: Int64, b: Int64)
    requires b != 0
    ensures !(a == LONG_MIN && b == -1) ==> LONG_MIN <= Quot(a, b) <= LONG_MAX
    ensures a == LONG_MIN && b == -1 ==> Quot(a, b) == LONG_MAX + 1
  {
    var q := Quot(a, b);
    var qa: nat, ba: nat, aa: nat := Abs(q), Abs(b), Abs(a);
    assert qa * ba <= aa < (qa + 1) * ba;
    if ba >= 2 {
      HalfBound(qa, ba, aa);
    } else {
      assert qa == aa by {
        assert ba == 1;
        assert qa * ba == qa && (qa + 1) * ba == qa + 1;
      }
      if a == LONG_MIN {
        if b == 1 {
          assert q < 0;
        } else {
          assert q > 0;
        }
      }
    }
  }

  /** A quotient by at least 2 is at most half the dividend. */
  lemma HalfBound(q: nat, d: nat, n: nat)
    requires d >= 2 && q * d <= n
    ensures q * 2 <= n
  {
    assert q * 2 <= q * d;
  }

  /** `a % b` on `long`: smaller in magnitude than the divisor, with the
      dividend's sign, and completing `Div64` to the dividend (in wrapping
      arithmetic for `Long.MIN_VALUE % -1`, which is 0). */
  function Rem64(a: Int64, b: Int64): (r: Int64)
    requires b != 0
    ensures Abs(r) < Abs(b)
    ensures r != 0 ==> ((r > 0) <==> (a > 0))
    ensures !(a == LONG_MIN && b == -1) ==> Div64(a, b) * b + r == a
    ensures a == LONG_MIN && b == -1 ==> r == 0
  {
    QuotRem(a, b);
    Rem(a, b)
  }
}

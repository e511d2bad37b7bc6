/**
 * Swift's integer conversions and operators, written out over Dafny's
 * unbounded numbers. Swift's `Int(x)` truncates toward zero and its `/` and
 * `%` on `Int` truncate as well, whereas Dafny's `.Floor`, `/` and `%` round
 * toward negative infinity.
 */
module SwiftInt {

  function Abs(a: int): nat {
    if a < 0 then -a else a
  }

  /** `Int(x)` of a finite value: the integer part of `x`, rounded toward zero. */
  function Truncate(x: real): (n: int)
    ensures x >= 0.0 ==> 0 <= n && n as real <= x < n as real + 1.0
    ensures x < 0.0 ==> n <= 0 && n as real - 1.0 < x <= n as real
  {
    if x >= 0.0 then x.Floor else -((-x).Floor)
  }

  lemma TruncateMonotonic(x: real, y: real)
    requires x <= y
    ensures Truncate(x) <= Truncate(y)
  {
    if 0.0 <= x {
      assert x.Floor <= y.Floor;
    } else if y < 0.0 {
      assert (-y).Floor <= (-x).Floor;
    }
  }

  /** A restatement of `Truncate`'s bounds, kept separate so that callers need not unfold it. */
  lemma TruncateBounds(x: real, bound: nat)
    ensures 0.0 <= x <= bound as real ==> 0 <= Truncate(x) <= bound
    ensures x <= 0.0 ==> Truncate(x) <= 0
  {
  }

  /** Truncating division `a / b` on Swift `Int`. */
  function Quot(a: int, b: int): (q: int)
    requires b != 0
    ensures Abs(q) == Abs(a) / Abs(b)
    ensures (a >= 0) == (b > 0) ==> q >= 0
    ensures (a >= 0) != (b > 0) ==> q <= 0
  {
    NonNegativeQuotient(Abs(a), Abs(b));
    if (a >= 0) == (b > 0) then Abs(a) / Abs(b) else -(Abs(a) / Abs(b))
  }

  lemma NonNegativeQuotient(x: nat, y: nat)
    requires y > 0
    ensures x / y >= 0
  {
  }

  /** Remainder `a % b` on Swift `Int`: it takes the sign of the dividend. */
  function Rem(a: int, b: int): (r: int)
    requires b != 0
    ensures Quot(a, b) * b + r == a
    ensures Abs(r) < Abs(b)
    ensures a >= 0 ==> r >= 0
    ensures a < 0 ==> r <= 0
  {
    QuotTimesDivisor(a, b);
    a - Quot(a, b) * b
  }

  lemma QuotTimesDivisor(a: int, b: int)
    requires b != 0
    ensures Quot(a, b) * b == if a >= 0 then a - Abs(a) % Abs(b) else a + Abs(a) % Abs(b)
  {
    var q, m := Abs(a) / Abs(b), Abs(a) % Abs(b);
    assert q * Abs(b) + m == Abs(a);
    if a >= 0 && b > 0 {
      assert Quot(a, b) == q && Abs(b) == b && Abs(a) == a;
    } else if a >= 0 {
      assert Quot(a, b) == -q && Abs(b) == -b && Abs(a) == a;
      assert -q * b == q * Abs(b);
    } else if b > 0 {
      assert Quot(a, b) == -q && Abs(b) == b && Abs(a) == -a;
      assert -q * b == -(q * Abs(b));
    } else {
      assert Quot(a, b) == q && Abs(b) == -b && Abs(a) == -a;
      assert q * b == -(q * Abs(b));
    }
  }

  /** On a non-negative dividend and a positive divisor Swift and Dafny agree. */
  lemma QuotRemOfNatural(a: int, b: int)
    requires a >= 0 && b > 0
    ensures Quot(a, b) == a / b && Rem(a, b) == a % b
  {
  }
}

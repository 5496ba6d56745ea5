/**
  Python's operators on unbounded integers: `<<`, `>>`, `&` and `|`.

  Python integers behave as infinite two's-complement bit strings: `x << k`
  loses no bits, `x >> k` is floor division by 2^k (also for negative `x`),
  and `&`, `|` act bit by bit, a negative number having infinitely many
  leading ones.  Dafny's `/` and `%` by a positive divisor are floor division
  and a non-negative remainder, exactly as Python's.
*/
module PyInt {

  function Pow2(k: nat): (r: nat)
    ensures r >= 1
  {
    if k == 0 then 1 else 2 * Pow2(k - 1)
  }

  /** Python `x << k`. */
  function ShiftLeft(x: int, k: nat): int
  {
    x * Pow2(k)
  }

  /** Python `x >> k`. */
  function ShiftRight(x: int, k: nat): int
  {
    x / Pow2(k)
  }

  /** Number of significant bits of `x` (of `~x` when `x` is negative); a termination measure. */
  function Width(x: int): nat
  {
    if x >= 0 then x else -x - 1
  }

  /** `x` is all zeros or all ones: its bits above bit 0 repeat bit 0 forever. */
  predicate IsSignOnly(x: int)
  {
    x == 0 || x == -1
  }

  lemma HalfNarrower(x: int)
    ensures Width(x / 2) <= Width(x)
    ensures !IsSignOnly(x) ==> Width(x / 2) < Width(x)
  {
  }

  /** Python `x & y`. */
  function BitAnd(x: int, y: int): int
    decreases Width(x) + Width(y)
  {
    if IsSignOnly(x) && IsSignOnly(y) then
      (if x == -1 && y == -1 then -1 else 0)
    else
      HalfNarrower(x);
      HalfNarrower(y);
      2 * BitAnd(x / 2, y / 2) + (if x % 2 == 1 && y % 2 == 1 then 1 else 0)
  }

  /** Python `x | y`. */
  function BitOr(x: int, y: int): int
    decreases Width(x) + Width(y)
  {
    if IsSignOnly(x) && IsSignOnly(y) then
      (if x == -1 || y == -1 then -1 else 0)
    else
      HalfNarrower(x);
      HalfNarrower(y);
      2 * BitOr(x / 2, y / 2) + (if x % 2 == 1 || y % 2 == 1 then 1 else 0)
  }

  lemma Pow2Add(a: nat, b: nat)
    ensures Pow2(a + b) == Pow2(a) * Pow2(b)
  {
    if a > 0 {
      Pow2Add(a - 1, b);
    }
  }

  lemma Pow2Constants()
    ensures Pow2(2) == 4 && Pow2(3) == 8 && Pow2(4) == 16 && Pow2(5) == 32
    ensures Pow2(8) == 256 && Pow2(11) == 2048 && Pow2(12) == 4096
    ensures Pow2(14) == 16384 && Pow2(20) == 1048576 && Pow2(24) == 16777216
  {
    Pow2Add(4, 4);
    Pow2Add(8, 3);
    Pow2Add(8, 4);
    Pow2Add(12, 2);
    Pow2Add(12, 8);
    Pow2Add(20, 4);
  }

  /** Division and remainder are determined by the defining equation. */
  lemma DivModUnique(x: int, d: int, q: int, r: int)
    requires d > 0 && 0 <= r < d && x == q * d + r
    ensures x / d == q && x % d == r
  {
    var q', r' := x / d, x % d;
    assert (q - q') * d == r' - r by {
      assert x == q' * d + r';
    }
    if q != q' {
      var n := if q > q' then q - q' else q' - q;
      assert n * d == (if q > q' then (q - q') * d else -((q - q') * d));
      MulAtLeast(n, d);
    }
  }

  lemma MulAtLeast(n: int, d: int)
    requires n >= 1 && d > 0
    ensures n * d >= d
  {
    assert n * d == d + (n - 1) * d;
  }

  lemma AndZero(x: int)
    ensures BitAnd(x, 0) == 0
    decreases Width(x)
  {
    if !IsSignOnly(x) {
      HalfNarrower(x);
      AndZero(x / 2);
    }
  }

  lemma OrZero(x: int)
    ensures BitOr(x, 0) == x
    decreases Width(x)
  {
    if !IsSignOnly(x) {
      HalfNarrower(x);
      OrZero(x / 2);
    }
  }

  /** `x % 2^(k+1)` from the lowest bit and `(x / 2) % 2^k`. */
  lemma ModDouble(x: int, p: int)
    requires p > 0
    ensures x % (2 * p) == 2 * ((x / 2) % p) + x % 2
  {
    var h := x / 2;
    assert x == 2 * h + x % 2;
    assert h == (h / p) * p + h % p;
    assert x == (h / p) * (2 * p) + (2 * (h % p) + x % 2);
    DivModUnique(x, 2 * p, h / p, 2 * (h % p) + x % 2);
  }

  /** Masking with `2^k - 1` keeps the low `k` bits: `x & (2^k - 1) == x mod 2^k`. */
  lemma {:induction false} AndLowMask(x: int, k: nat)
    ensures BitAnd(x, Pow2(k) - 1) == x % Pow2(k)
    decreases k
  {
    if k == 0 {
      AndZero(x);
    } else {
      var m := Pow2(k) - 1;
      var p := Pow2(k - 1);
      assert m == 2 * (p - 1) + 1;
      DivModUnique(m, 2, p - 1, 1);
      assert !IsSignOnly(m);
      AndLowMask(x / 2, k - 1);
      ModDouble(x, p);
    }
  }

  /**
    OR-ing a value below 2^k into a number shifted left by `k` bits
    fills the vacated low bits: the fields do not overlap, so `|` is `+`.
  */
  lemma {:induction false} OrDisjoint(a: int, b: int, k: nat)
    requires 0 <= b < Pow2(k)
    ensures BitOr(ShiftLeft(a, k), b) == ShiftLeft(a, k) + b
  {
    if k == 0 {
      OrZero(a);
    } else {
      var p := Pow2(k - 1);
      var x := ShiftLeft(a, k);
      assert x == 2 * (a * p);
      DivModUnique(x, 2, a * p, 0);
      DivModUnique(b, 2, b / 2, b % 2);
      if IsSignOnly(x) && IsSignOnly(b) {
        assert x == 0 && b == 0;
      } else {
        assert b / 2 < p;
        OrDisjoint(a, b / 2, k - 1);
      }
    }
  }

  /** A left shift followed by a smaller right shift is a single left shift. */
  lemma ShiftLeftThenRight(x: int, a: nat, b: nat)
    ensures ShiftRight(ShiftLeft(x, a + b), a) == ShiftLeft(x, b)
  {
    Pow2Add(b, a);
    assert ShiftLeft(x, a + b) == (x * Pow2(b)) * Pow2(a);
    DivModUnique(ShiftLeft(x, a + b), Pow2(a), x * Pow2(b), 0);
  }
}

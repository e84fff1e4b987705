/// Integer powers and arithmetic modulo `m`, the base of every field computation
/// in `src/ecsrp5.rs`. Congruence is equality of remainders, so that it is
/// symmetric and transitive for free.
module ModArith {

  ghost predicate Cong(a: int, b: int, m: int)
    requires m > 0
  {
    a % m == b % m
  }

  function Pow(a: int, n: nat): int {
    if n == 0 then 1 else a * Pow(a, n - 1)
  }

  // ---- Euclidean division ----

  lemma DivModUnique(x: int, m: int, q: int, r: int)
    requires m > 0 && x == q * m + r && 0 <= r < m
    ensures x / m == q && x % m == r
  {
    MulAtLeast(q - x / m, m);
    assert (q - x / m) * m == x % m - r;
  }

  lemma MulAtLeast(d: int, m: int)
    requires m > 0
    ensures d >= 1 ==> d * m >= m
    ensures d <= -1 ==> d * m <= -m
  {
    assert (d - 1) * m == d * m - m && (d + 1) * m == d * m + m;
  }

  lemma ModShift(a: int, k: int, m: int)
    requires m > 0
    ensures (a + k * m) % m == a % m
  {
    assert a + k * m == (a / m + k) * m + a % m;
    DivModUnique(a + k * m, m, a / m + k, a % m);
  }

  /// The quotient that a congruence stands for.
  lemma Witness(a: int, b: int, m: int) returns (k: int)
    requires m > 0 && Cong(a, b, m)
    ensures a == b + k * m
  {
    k := a / m - b / m;
    assert a == (a / m) * m + a % m;
    assert b == (b / m) * m + b % m;
  }

  lemma FromWitness(a: int, b: int, k: int, m: int)
    requires m > 0 && a == b + k * m
    ensures Cong(a, b, m)
  {
    ModShift(b, k, m);
  }

  lemma CongMod(a: int, m: int)
    requires m > 0
    ensures Cong(a % m, a, m)
  {
    FromWitness(a, a % m, a / m, m);
  }

  lemma CongSmall(a: int, b: int, m: int)
    requires m > 0 && Cong(a, b, m) && 0 <= a < m && 0 <= b < m
    ensures a == b
  {
    DivModUnique(a, m, 0, a);
    DivModUnique(b, m, 0, b);
  }

  lemma CongAdd(a: int, b: int, c: int, d: int, m: int)
    requires m > 0 && Cong(a, b, m) && Cong(c, d, m)
    ensures Cong(a + c, b + d, m)
    ensures Cong(a - c, b - d, m)
  {
    var k := Witness(a, b, m);
    var l := Witness(c, d, m);
    assert a + c == (b + d) + (k + l) * m;
    assert a - c == (b - d) + (k - l) * m;
    FromWitness(a + c, b + d, k + l, m);
    FromWitness(a - c, b - d, k - l, m);
  }

  lemma CongMul(a: int, b: int, c: int, d: int, m: int)
    requires m > 0 && Cong(a, b, m) && Cong(c, d, m)
    ensures Cong(a * c, b * d, m)
  {
    var k := Witness(a, b, m);
    var l := Witness(c, d, m);
    MulWitness(b, d, k, l, m);
    FromWitness(a * c, b * d, k * d + b * l + k * l * m, m);
  }

  lemma MulWitness(b: int, d: int, k: int, l: int, m: int)
    ensures (b + k * m) * (d + l * m) == b * d + (k * d + b * l + k * l * m) * m
  {
    assert (b + k * m) * (d + l * m) == b * d + b * (l * m) + k * m * d + k * m * (l * m);
    assert b * (l * m) == b * l * m && k * m * d == k * d * m && k * m * (l * m) == k * l * m * m;
  }

  // ---- Powers ----

  lemma {:induction false} PowAdd(a: int, m: nat, n: nat)
    ensures Pow(a, m + n) == Pow(a, m) * Pow(a, n)
  {
    if m > 0 {
      PowAdd(a, m - 1, n);
      assert Pow(a, m + n) == a * (Pow(a, m - 1) * Pow(a, n));
    }
  }

  lemma {:induction false} PowMul(a: int, m: nat, n: nat)
    ensures Pow(Pow(a, m), n) == Pow(a, m * n)
  {
    if n > 0 {
      PowMul(a, m, n - 1);
      PowAdd(a, m, m * (n - 1));
      assert m * n == m + m * (n - 1);
    }
  }

  lemma {:induction false} PowBase(a: int, b: int, n: nat)
    ensures Pow(a * b, n) == Pow(a, n) * Pow(b, n)
  {
    if n > 0 {
      PowBase(a, b, n - 1);
      SwapMiddle(a, b, Pow(a, n - 1), Pow(b, n - 1));
    }
  }

  lemma SwapMiddle(a: int, b: int, u: int, v: int)
    ensures (a * b) * (u * v) == (a * u) * (b * v)
  {
    assert (a * b) * (u * v) == a * (b * u) * v;
    assert b * u == u * b;
  }

  lemma {:induction false} PowOne(n: nat)
    ensures Pow(1, n) == 1
  {
    if n > 0 { PowOne(n - 1); }
  }

  lemma {:induction false} CongPow(a: int, b: int, n: nat, m: int)
    requires m > 0 && Cong(a, b, m)
    ensures Cong(Pow(a, n), Pow(b, n), m)
  {
    if n > 0 {
      CongPow(a, b, n - 1, m);
      CongMul(a, b, Pow(a, n - 1), Pow(b, n - 1), m);
    }
  }

  lemma {:induction false} PowNonNeg(a: nat, n: nat)
    ensures Pow(a, n) >= 0
    ensures a > 0 ==> Pow(a, n) > 0
  {
    if n > 0 { PowNonNeg(a, n - 1); }
  }

  /// `BigUint::modpow`, taken as its mathematical meaning.
  function ModPow(a: int, n: nat, m: int): (r: int)
    requires m > 0
    ensures 0 <= r < m
  {
    Pow(a, n) % m
  }

  /// 2^k as an exponent or a shift.
  function Two(k: nat): (r: nat)
    ensures r > 0
  {
    if k == 0 then 1 else 2 * Two(k - 1)
  }

  lemma {:induction false} TwoAdd(j: nat, k: nat)
    ensures Two(j + k) == Two(j) * Two(k)
  {
    if j > 0 { TwoAdd(j - 1, k); }
  }
}

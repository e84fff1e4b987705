/// `modinv`, `legendre_symbol` and `prime_mod_sqrt` of `src/ecsrp5.rs`, for any odd
/// prime: Fermat inversion, Euler's criterion, and the three square-root algorithms
/// (Atkin for p = 5 mod 8, the direct power for p = 3 mod 4, Tonelli-Shanks otherwise).
module FieldSqrt {
  import opened Basics
  import opened ModArith
  import opened NumberTheory

  // ---- Inversion ----

  function ModInv(a: nat, p: nat): nat
    requires p > 2
  {
    ModPow(a, p - 2, p)
  }

  lemma ModInvCorrect(a: nat, p: nat)
    requires OddPrime(p)
    ensures !Cong(a, 0, p) ==> Cong(a * ModInv(a, p), 1, p)
    ensures Cong(a, 0, p) ==> ModInv(a, p) == 0
  {
    CongMod(Pow(a, p - 2), p);
    if Cong(a, 0, p) {
      CongMul(a, 0, Pow(a, p - 3), Pow(a, p - 3), p);
      DivModUnique(0, p, 0, 0);
    } else {
      Fermat(p, a);
      CongMul(a, a, ModInv(a, p), Pow(a, p - 2), p);
    }
  }

  // ---- Euler's criterion ----

  ghost predicate IsSquare(a: int, p: int)
    requires p > 0
  {
    exists x :: 0 <= x < p && Cong(x * x, a, p)
  }

  function LegendreSymbol(a: nat, p: nat): int
    requires p > 2
  {
    var l := ModPow(a, (p - 1) / 2, p);
    if l == p - 1 then -1 else if l == 0 then 0 else 1
  }

  lemma LegendreIsEuler(a: nat, p: nat)
    requires OddPrime(p)
    ensures LegendreSymbol(a, p) == 0 <==> Cong(a, 0, p)
    ensures LegendreSymbol(a, p) == 1 <==> Cong(Pow(a, (p - 1) / 2), 1, p)
    ensures LegendreSymbol(a, p) == -1 <==> Cong(Pow(a, (p - 1) / 2), -1, p)
  {
    var h := (p - 1) / 2;
    DivModUnique(0, p, 0, 0);
    DivModUnique(1, p, 0, 1);
    DivModUnique(-1, p, -1, p - 1);
    OddPrimeIsOdd(p);
    if Cong(a, 0, p) {
      CongMul(a, 0, Pow(a, h - 1), Pow(a, h - 1), p);
    } else {
      EulerDichotomy(p, a);
    }
  }

  /// A square that is not 0 has exponent (p-1)/2 equal to 1.
  lemma SquareHasEulerOne(a: nat, p: nat)
    requires OddPrime(p) && !Cong(a, 0, p) && IsSquare(a, p)
    ensures Cong(Pow(a, (p - 1) / 2), 1, p)
  {
    OddPrimeIsOdd(p);
    var h := (p - 1) / 2;
    var x :| 0 <= x < p && Cong(x * x, a, p);
    if Cong(x, 0, p) { CongMul(x, 0, x, 0, p); }
    CongPow(x * x, a, h, p);
    PowBase(x, x, h);
    PowAdd(x, h, h);
    Fermat(p, x);
  }

  lemma RootMakesSquare(a: int, x: int, p: int)
    requires p > 0 && Cong(x * x, a, p)
    ensures IsSquare(a, p)
  {
    CongMod(x, p);
    CongMul(x % p, x, x % p, x, p);
    var y := x % p;
    assert 0 <= y < p && Cong(y * y, a, p);
  }

  // ---- p = 3 mod 4 ----

  lemma QuarterPowerIsRoot(a: nat, p: nat)
    requires OddPrime(p) && p % 4 == 3 && Cong(Pow(a, (p - 1) / 2), 1, p)
    ensures Cong(Pow(a, (p + 1) / 4) * Pow(a, (p + 1) / 4), a, p)
  {
    var e, h := (p + 1) / 4, (p - 1) / 2;
    assert e + e == 1 + h;
    SquareOfHalf(a, e, h);
    CongMul(a, a, Pow(a, h), 1, p);
  }

  lemma SquareOfHalf(a: int, e: nat, h: nat)
    requires e + e == 1 + h
    ensures Pow(a, e) * Pow(a, e) == a * Pow(a, h)
  {
    PowAdd(a, e, e);
  }

  // ---- p = 5 mod 8 ----

  lemma {:induction false} PowMinusOneOdd(k: nat)
    ensures Pow(-1, 2 * k) == 1 && Pow(-1, 2 * k + 1) == -1
  {
    if k > 0 { PowMinusOneOdd(k - 1); }
  }

  /// A square root of -1, for p = 1 mod 4.
  lemma RootOfMinusOne(p: nat) returns (i: int)
    requires OddPrime(p) && p % 4 == 1
    ensures Cong(i * i, -1, p) && !Cong(1 + i, 0, p)
  {
    var n := NonResidueExists(p);
    var e := (p - 1) / 4;
    i := Pow(n, e);
    PowAdd(n, e, e);
    DivModUnique(1, p, 0, 1);
    DivModUnique(-1, p, -1, p - 1);
    if Cong(1 + i, 0, p) {
      CongAdd(1 + i, 0, 1, 1, p);
      CongMul(i, -1, i, -1, p);
    }
  }

  /// (2i)^h = (1 + i)^(p-1) = 1 when i^2 = -1.
  lemma TwiceRootOfMinusOne(p: nat, i: int)
    requires OddPrime(p) && Cong(i * i, -1, p) && !Cong(1 + i, 0, p)
    ensures Cong(Pow(2 * i, (p - 1) / 2), 1, p)
  {
    OddPrimeIsOdd(p);
    var h := (p - 1) / 2;
    assert (1 + i) * (1 + i) == 2 * i + (1 + i * i);
    CongAdd(i * i, -1, 1, 1, p);
    CongAdd(2 * i, 2 * i, 1 + i * i, 0, p);
    CongPow((1 + i) * (1 + i), 2 * i, h, p);
    PowBase(1 + i, 1 + i, h);
    PowAdd(1 + i, h, h);
    Fermat(p, 1 + i);
  }

  /// 2 is a non-residue when p = 5 mod 8: 2 = -i (1 + i)^2 for a root i of -1.
  lemma TwoIsNonResidue(p: nat)
    requires OddPrime(p) && p % 8 == 5
    ensures Cong(Pow(2, (p - 1) / 2), -1, p)
  {
    var k := p / 8;
    FiveModEight(p, k);
    var h := (p - 1) / 2;
    var i := RootOfMinusOne(p);
    TwiceRootOfMinusOne(p, i);
    PowBase(2, i, h);
    OddPowerOfRoot(p, i, k);
    InverseOfMinusOne(p, Pow(2, h), Pow(i, h));
  }

  lemma FiveModEight(p: int, k: int)
    requires p == 8 * k + 5
    ensures p % 4 == 1 && (p - 1) / 2 == 2 * (2 * k + 1)
  {
    DivModUnique(p, 4, 2 * k + 1, 1);
    DivModUnique(p - 1, 2, 4 * k + 2, 0);
  }

  /// i^(2(2k+1)) = (i^2)^(2k+1) = -1
  lemma OddPowerOfRoot(p: int, i: int, k: nat)
    requires p > 0 && Cong(i * i, -1, p)
    ensures Cong(Pow(i, 2 * (2 * k + 1)), -1, p)
  {
    PowMul(i, 2, 2 * k + 1);
    PowSquare(i);
    CongPow(i * i, -1, 2 * k + 1, p);
    PowMinusOneOdd(k);
  }

  lemma InverseOfMinusOne(p: int, u: int, v: int)
    requires p > 0 && Cong(u * v, 1, p) && Cong(v, -1, p)
    ensures Cong(u, -1, p)
  {
    CongMul(u, u, v, -1, p);
    CongMul(u * -1, 1, -1, -1, p);
  }

  lemma PowSquare(i: int)
    ensures Pow(i, 2) == i * i && Pow(i, 1) == i
  {
    assert Pow(i, 0) == 1;
  }

  /// i = 2 a v^2 is a root of -1, since i^2 = (2a)^((p-1)/2).
  lemma AtkinRootOfMinusOne(a: int, v: int, i: int, p: nat)
    requires OddPrime(p) && p % 8 == 5
    requires Cong(Pow(a, (p - 1) / 2), 1, p)
    requires Cong(v, Pow(2 * a, (p - 5) / 8), p) && Cong(i, 2 * a * (v * v), p)
    ensures Cong(i * i, -1, p)
  {
    var h, e := (p - 1) / 2, (p - 5) / 8;
    var w := Pow(2 * a, e);
    CongMul(v, w, v, w, p);
    CongMul(2 * a, 2 * a, v * v, w * w, p);
    PowAdd(2 * a, e, e);
    PowSquare(2 * a);
    PowAdd(2 * a, 1, e + e);
    var j := Pow(2 * a, 1 + (e + e));
    CongMul(i, j, i, j, p);
    PowAdd(2 * a, 1 + (e + e), 1 + (e + e));
    assert h == 1 + (e + e) + (1 + (e + e));
    PowBase(2, a, h);
    TwoIsNonResidue(p);
    CongMul(Pow(2, h), -1, Pow(a, h), 1, p);
  }

  /// (a v (i - 1))^2 = a^2 v^2 (i^2 + 1) - a i (2 a v^2) = -a i^2 = a
  lemma AtkinRoot(a: int, v: int, i: int, p: nat)
    requires OddPrime(p) && p % 8 == 5
    requires Cong(Pow(a, (p - 1) / 2), 1, p)
    requires Cong(v, Pow(2 * a, (p - 5) / 8), p) && Cong(i, 2 * a * (v * v), p)
    ensures Cong((a * v * (i - 1)) * (a * v * (i - 1)), a, p)
  {
    AtkinRootOfMinusOne(a, v, i, p);
    AtkinIdentity(a, v, i);
    var g := a * v * (a * v);
    CongAdd(i * i, -1, 1, 1, p);
    CongMul(g, g, i * i + 1, 0, p);
    CongMul(a * i, a * i, 2 * a * (v * v), i, p);
    Regroup(a, i, i);
    CongMul(a, a, i * i, -1, p);
    CongAdd(g * (i * i + 1), g * 0, a * i * (2 * a * (v * v)), a * -1, p);
  }

  lemma Regroup(n: int, v: int, d: int)
    ensures n * v * d == n * (d * v)
  {
  }

  lemma AtkinIdentity(a: int, v: int, i: int)
    ensures (a * v * (i - 1)) * (a * v * (i - 1))
         == a * v * (a * v) * (i * i + 1) - a * i * (2 * a * (v * v))
  {
    var u := a * v;
    assert (u * (i - 1)) * (u * (i - 1)) == u * u * ((i - 1) * (i - 1));
    assert (i - 1) * (i - 1) == (i * i + 1) - 2 * i;
    assert u * u * ((i * i + 1) - 2 * i) == u * u * (i * i + 1) - u * u * (2 * i);
    assert u * u * (2 * i) == a * i * (2 * a * (v * v));
  }

  // ---- Tonelli-Shanks ----

  /// `t` squared `k` times.
  ghost function Sq(t: int, k: nat): int {
    Pow(t, Two(k))
  }

  lemma SqNext(t: int, k: nat)
    ensures Sq(t, k + 1) == Sq(t, k) * Sq(t, k)
    ensures Sq(t, 0) == t
  {
    PowAdd(t, Two(k), Two(k));
    assert Pow(t, 1) == t * Pow(t, 0);
  }

  lemma SqSq(t: int, j: nat, k: nat)
    ensures Sq(Sq(t, j), k) == Sq(t, j + k)
  {
    PowMul(t, Two(j), Two(k));
    TwoAdd(j, k);
  }

  lemma {:induction false} SqOneStays(t: int, j: nat, k: nat, p: int)
    requires p > 0 && j <= k && Cong(Sq(t, j), 1, p)
    ensures Cong(Sq(t, k), 1, p)
    decreases k - j
  {
    if j < k {
      SqNext(t, j);
      CongMul(Sq(t, j), 1, Sq(t, j), 1, p);
      SqOneStays(t, j + 1, k, p);
    }
  }

  /// What the Tonelli-Shanks loop keeps: x^2 = a t, t is killed by m - 1 squarings,
  /// and c reaches -1 after exactly m - 1 squarings.
  ghost predicate TonelliInvariant(a: int, x: int, t: int, c: int, m: nat, p: int)
    requires p > 0
  {
    && m >= 1
    && Cong(x * x, a * t, p)
    && Cong(Sq(t, m - 1), 1, p)
    && Cong(Sq(c, m - 1), -1, p)
  }

  /// The start values of the loop satisfy the invariant.
  lemma TonelliStart(a: int, z: int, q: nat, s: nat, h: nat, e: nat, p: int)
    requires p > 0 && s >= 1 && h == q * Two(s - 1) && e + e == 1 + q
    requires Cong(Pow(a, h), 1, p) && Cong(Pow(z, h), -1, p)
    ensures TonelliInvariant(a, Pow(a, e), Pow(a, q), Pow(z, q), s, p)
  {
    SquareOfHalf(a, e, q);
    SqOfPower(a, q, s - 1);
    SqOfPower(z, q, s - 1);
  }

  lemma TonelliExponents(q: nat, s: nat, p: int)
    requires p % 2 == 1 && p > 2 && q % 2 == 1 && p - 1 == Two(s) * q
    ensures s >= 1 && (p - 1) / 2 == q * Two(s - 1) && (q + 1) / 2 + (q + 1) / 2 == 1 + q
  {
    if s >= 1 { HalfOfProduct(p - 1, Two(s), Two(s - 1), q); }
  }

  lemma SqOfPower(a: int, q: nat, k: nat)
    ensures Sq(Pow(a, q), k) == Pow(a, q * Two(k))
  {
    PowMul(a, q, Two(k));
  }

  lemma HalfOfProduct(n: int, u: int, v: int, q: int)
    requires n == u * q && u == 2 * v
    ensures n / 2 == q * v
  {
    assert n == 2 * (q * v);
  }

  /// One pass: `i` is the least number of squarings that kills `t`, and
  /// b = c^(2^(m-i-1)); the invariant holds again with the smaller m = i.
  lemma TonelliStep(a: int, x: int, t: int, c: int, m: nat, i: nat, b: int, p: int)
    requires OddPrime(p) && TonelliInvariant(a, x, t, c, m, p)
    requires 1 <= i < m && Cong(Sq(t, i), 1, p) && !Cong(Sq(t, i - 1), 1, p)
    requires Cong(b, Sq(c, m - i - 1), p)
    ensures TonelliInvariant(a, x * b, t * b * b, b * b, i, p)
  {
    // t^(2^(i-1)) is a square root of 1 other than 1
    SqNext(t, i - 1);
    SquaresAgree(p, Sq(t, i - 1), 1);
    // (b^2)^(2^(i-1)) = c^(2^(m-1)) = -1
    var g := Sq(c, m - i - 1);
    SqSq(c, m - i - 1, i);
    SqNext(g, 0);
    SqSq(g, 1, i - 1);
    CongMul(b, g, b, g, p);
    CongPow(b * b, g * g, Two(i - 1), p);
    assert Cong(Sq(b * b, i - 1), -1, p);
    // (t b^2)^(2^(i-1)) = (-1)(-1)
    PowBase(t, b * b, Two(i - 1));
    CongMul(Sq(t, i - 1), -1, Sq(b * b, i - 1), -1, p);
    assert t * b * b == t * (b * b);
    // (x b)^2 = a t b^2
    CongMul(x * x, a * t, b * b, b * b, p);
    TonelliProducts(a, x, t, b);
  }

  lemma TonelliProducts(a: int, x: int, t: int, b: int)
    ensures (x * b) * (x * b) == x * x * (b * b)
    ensures a * t * (b * b) == a * (t * b * b)
  {
  }

  lemma TonelliReduce(a: int, x: int, t: int, c: int, m: nat, p: int)
    requires p > 0 && TonelliInvariant(a, x, t, c, m, p)
    ensures TonelliInvariant(a, x % p, t % p, c % p, m, p)
  {
    CongMod(x, p);
    CongMod(t, p);
    CongMod(c, p);
    CongMul(x % p, x, x % p, x, p);
    CongMul(a, a, t % p, t, p);
    CongPow(t % p, t, Two(m - 1), p);
    CongPow(c % p, c, Two(m - 1), p);
  }

  /// The inner search stops before `m`.
  lemma OrderBelowM(t: int, m: nat, p: int)
    requires OddPrime(p) && m >= 1 && Cong(Sq(t, m - 1), 1, p) && !Cong(t, 1, p)
    ensures m >= 2
  {
    SqNext(t, 0);
  }

  /// 2^34 does not divide p - 1, so the shift amount of `1u32 << (m - i - 1)` stays below 32.
  predicate SmallShift(p: nat)
    requires p > 0
  {
    (p - 1) % 0x4_0000_0000 != 0
  }

  /// The result `prime_mod_sqrt` promises: both roots, or nothing when there is none.
  ghost predicate SqrtResult(a: nat, p: nat, r: Option<(nat, nat)>)
    requires p > 0
  {
    && (r.None? <==> !IsSquare(a, p))
    && (r.Some? && a % p == 0 ==> r.value == (0, 0))
    && (r.Some? && a % p != 0 ==>
          var (x, y) := r.value;
          0 < x < p && 0 < y < p && x + y == p && Cong(x * x, a, p) && Cong(y * y, a, p))
  }

  lemma RootPair(a: nat, a0: nat, x: nat, p: nat)
    requires OddPrime(p) && a == a0 % p && a != 0 && x < p && Cong(x * x, a, p)
    ensures SqrtResult(a0, p, Some((x, p - x)))
  {
    CongMod(a0, p);
    DivModUnique(a, p, 0, a);
    DivModUnique(0, p, 0, 0);
    assert x != 0;
    assert (p - x) * (p - x) == x * x + (p - 2 * x) * p;
    FromWitness((p - x) * (p - x), x * x, p - 2 * x, p);
    RootMakesSquare(a0, x, p);
  }

  lemma NotASquare(a: nat, a0: nat, p: nat)
    requires OddPrime(p) && a == a0 % p && a != 0 && LegendreSymbol(a, p) != 1
    ensures !IsSquare(a0, p)
  {
    CongMod(a0, p);
    DivModUnique(a, p, 0, a);
    DivModUnique(0, p, 0, 0);
    LegendreIsEuler(a, p);
    if IsSquare(a0, p) {
      var x :| 0 <= x < p && Cong(x * x, a0, p);
      RootMakesSquare(a, x, p);
      SquareHasEulerOne(a, p);
    }
  }

  lemma ZeroHasRootZero(a: nat, p: nat)
    requires p > 0 && a % p == 0
    ensures SqrtResult(a, p, Some((0, 0)))
  {
    DivModUnique(0, p, 0, 0);
    RootMakesSquare(a, 0, p);
  }

  /// `prime_mod_sqrt`. With `overflow` the 32-bit shift of Tonelli-Shanks overflowed, which
  /// takes a prime with 2^34 dividing p - 1 and stops the program.
  method PrimeModSqrt(a0: nat, p: nat) returns (r: Option<(nat, nat)>, overflow: bool)
    requires OddPrime(p)
    ensures !overflow ==> SqrtResult(a0, p, r)
    ensures overflow ==> !SmallShift(p) && p % 8 == 1 && IsSquare(a0, p)
    ensures !SmallShift(p) && a0 % p == p - 1 ==> overflow
  {
    overflow := false;
    var a := a0 % p;
    if a == 0 {
      ZeroHasRootZero(a0, p);
      return Some((0, 0)), false;
    }
    LegendreIsEuler(a, p);
    if LegendreSymbol(a, p) != 1 {
      if !SmallShift(p) && a == p - 1 { MinusOneIsResidue(p); }
      NotASquare(a, a0, p);
      return None, false;
    }
    var root;
    root, overflow := RootOfResidue(a, p);
    if overflow {
      ResidueIsSquare(a, a0, p);
      return None, true;
    }
    match root
    case None => return None, false;
    case Some(x) =>
      RootPair(a, a0, x, p);
      return Some((x, p - x)), false;
  }

  lemma MinusOneIsResidue(p: nat)
    requires p > 2 && !SmallShift(p)
    ensures Cong(Pow(p - 1, (p - 1) / 2), 1, p)
  {
    hide Pow, Cong;
    LargeShiftClass(p);
    EvenExponent((p - 1) / 2);
    FromWitness(p - 1, -1, 1, p);
    CongPow(p - 1, -1, (p - 1) / 2, p);
  }

  lemma EvenExponent(n: nat)
    requires n % 2 == 0
    ensures Pow(-1, n) == 1
  {
    PowMinusOneOdd(n / 2);
  }

  lemma ResidueIsSquare(a: nat, a0: nat, p: nat)
    requires OddPrime(p) && a == a0 % p && Cong(Pow(a, (p - 1) / 2), 1, p)
    ensures IsSquare(a0, p)
  {
    EulerOneIsSquare(a, p);
    CongMod(a0, p);
    var x :| 0 <= x < p && Cong(x * x, a, p);
    RootMakesSquare(a0, x, p);
  }

  lemma ResidueClasses(p: int)
    ensures p % 8 == 3 || p % 8 == 7 ==> p % 4 == 3
    ensures p % 2 == 1 ==> p % 8 == 1 || p % 8 == 3 || p % 8 == 5 || p % 8 == 7
  {
    var q, r := p / 8, p % 8;
    assert p == 8 * q + r;
    var u, h := if r >= 4 then 1 else 0, r / 2;
    DivModUnique(p, 4, 2 * q + u, r - 4 * u);
    DivModUnique(p, 2, 4 * q + h, r - 2 * h);
  }

  lemma LargeShiftClass(p: int)
    requires p > 0
    ensures !SmallShift(p) ==> p % 8 == 1 && (p - 1) / 2 % 2 == 0
  {
    var w := (p - 1) / 0x4_0000_0000;
    if !SmallShift(p) {
      assert p - 1 == 0x4_0000_0000 * w;
      DivModUnique(p, 8, 0x8000_0000 * w, 1);
      DivModUnique(p - 1, 2, 2 * (0x1_0000_0000 * w), 0);
      DivModUnique(2 * (0x1_0000_0000 * w), 2, 0x1_0000_0000 * w, 0);
    }
  }

  /// The choice between the three algorithms, and the check of the first.
  method RootOfResidue(a: nat, p: nat) returns (r: Option<nat>, overflow: bool)
    requires OddPrime(p)
    requires 0 < a < p && Cong(Pow(a, (p - 1) / 2), 1, p)
    ensures !overflow ==> r.Some? && r.value < p && Cong(r.value * r.value, a, p)
    ensures overflow ==> !SmallShift(p) && p % 8 == 1
    ensures !SmallShift(p) && a == p - 1 ==> overflow
  {
    LargeShiftClass(p);
    var x;
    overflow := false;
    OddPrimeIsOdd(p);
    var pMod8 := p % 8;
    ResidueClasses(p);
    if pMod8 == 5 {
      x := AtkinSqrt(a, p);
      if (x * x) % p != a { return None, false; }
    } else if pMod8 == 3 || pMod8 == 7 {
      x := QuarterPowerSqrt(a, p);
    } else {
      x, overflow := TonelliShanks(a, p);
    }
    return Some(x), overflow;
  }

  method AtkinSqrt(a: nat, p: nat) returns (x: nat)
    requires OddPrime(p) && p % 8 == 5 && a < p && Cong(Pow(a, (p - 1) / 2), 1, p)
    ensures x < p && (x * x) % p == a && Cong(x * x, a, p)
  {
    var v := ModPow(2 * a % p, (p - 5) / 8, p);
    var iVal := (2 * a % p * v % p * v) % p;
    var iMinus1 := if iVal >= 1 then (iVal - 1) % p else (p - 1 + iVal) % p;
    x := (a * v % p * iMinus1) % p;
    AtkinCode(a, v, iVal, iMinus1, x, p);
  }

  method QuarterPowerSqrt(a: nat, p: nat) returns (x: nat)
    requires OddPrime(p) && p % 4 == 3 && Cong(Pow(a, (p - 1) / 2), 1, p)
    ensures x < p && Cong(x * x, a, p)
  {
    x := ModPow(a, (p + 1) / 4, p);
    QuarterPowerIsRoot(a, p);
    CongMod(Pow(a, (p + 1) / 4), p);
    CongMul(x, Pow(a, (p + 1) / 4), x, Pow(a, (p + 1) / 4), p);
  }

  /// The Atkin branch with all its intermediate reductions.
  lemma AtkinCode(a: nat, v: nat, iVal: nat, iMinus1: nat, x: nat, p: nat)
    requires OddPrime(p) && p % 8 == 5 && a < p && Cong(Pow(a, (p - 1) / 2), 1, p)
    requires v == ModPow(2 * a % p, (p - 5) / 8, p)
    requires iVal == (2 * a % p * v % p * v) % p
    requires iMinus1 == if iVal >= 1 then (iVal - 1) % p else (p - 1 + iVal) % p
    requires x == (a * v % p * iMinus1) % p
    ensures (x * x) % p == a && Cong(x * x, a, p)
  {
    var e := (p - 5) / 8;
    CongMod(2 * a, p);
    CongPow(2 * a % p, 2 * a, e, p);
    CongMod(Pow(2 * a % p, e), p);
    CongMul(2 * a % p, 2 * a, v, v, p);
    CongMod(2 * a % p * v, p);
    CongMul(2 * a % p * v % p, 2 * a * v, v, v, p);
    CongMod(2 * a % p * v % p * v, p);
    Regroup(2 * a, v, v);
    AtkinRoot(a, v, iVal, p);
    CongMod(iVal - 1, p);
    CongMod(p - 1 + iVal, p);
    FromWitness(p - 1 + iVal, iVal - 1, 1, p);
    CongMod(a * v, p);
    CongMul(a * v % p, a * v, iMinus1, iVal - 1, p);
    CongMod(a * v % p * iMinus1, p);
    CongMul(x, a * v * (iVal - 1), x, a * v * (iVal - 1), p);
    DivModUnique(a, p, 0, a);
  }

  lemma ShiftBound(q: nat, s: nat, p: nat)
    requires p > 1 && p - 1 == Two(s) * q && SmallShift(p)
    ensures s < 34
  {
    if s >= 34 {
      TwoPower34();
      TwoAdd(34, s - 34);
      FactorOut(p - 1, 0x4_0000_0000, Two(s - 34), q);
    }
  }

  /// The other way round: with 2^34 dividing p - 1, at least 34 halvings are made.
  lemma ShiftTooLarge(q: nat, s: nat, p: nat)
    requires p > 1 && p - 1 == Two(s) * q && q % 2 == 1 && !SmallShift(p)
    ensures s >= 34
  {
    if s < 34 {
      TwoPower34();
      TwoAdd(s, 34 - s);
      var w := (p - 1) / 0x4_0000_0000;
      assert p - 1 == Two(34) * w;
      assert Two(34 - s) == 2 * Two(33 - s);
      EvenFactor(Two(s), Two(33 - s), q, w);
    }
  }

  lemma EvenFactor(u: int, v: int, q: int, w: int)
    requires u > 0 && u * q == u * (2 * v) * w
    ensures q == 2 * (v * w)
  {
    var d := q - 2 * (v * w);
    assert u * d == u * q - u * (2 * v) * w;
    if d > 0 { MulAtLeast(d, u); }
    if d < 0 { MulAtLeast(-d, u); }
  }

  lemma TwoPower34()
    ensures Two(34) == 0x4_0000_0000
  {
    assert Two(2) == 4 && Two(4) == 16;
    TwoAdd(4, 4);
    TwoAdd(8, 8);
    TwoAdd(16, 16);
    TwoAdd(32, 2);
  }

  lemma FactorOut(n: int, u: int, v: int, q: int)
    requires u > 0 && n == u * v * q
    ensures n % u == 0
  {
    assert n == (v * q) * u + 0;
    DivModUnique(n, u, v * q, 0);
  }

  lemma TonelliPass(a: int, x: nat, t: nat, c: nat, m: nat, i: nat, p: int)
    requires OddPrime(p) && TonelliInvariant(a, x, t, c, m, p)
    requires 1 <= i < m && Cong(Sq(t, i), 1, p) && !Cong(Sq(t, i - 1), 1, p)
    ensures var b := ModPow(c, Two(m - i - 1), p);
            TonelliInvariant(a, (x * b) % p, ((t * b % p) * b) % p, (b * b) % p, i, p)
  {
    var b := ModPow(c, Two(m - i - 1), p);
    CongMod(Sq(c, m - i - 1), p);
    TonelliStep(a, x, t, c, m, i, b, p);
    TonelliReduce(a, x * b, t * b * b, b * b, i, p);
    CongMod(t * b, p);
    CongMul(t * b % p, t * b, b, b, p);
  }

  method SplitPowerOfTwo(n: nat) returns (q: nat, s: nat)
    requires n > 0
    ensures n == Two(s) * q && q % 2 == 1 && (n % 2 == 0 ==> s > 0)
  {
    q, s := n, 0;
    while q % 2 == 0
      invariant q > 0 && n == Two(s) * q && (s == 0 ==> q == n)
      decreases q
    {
      HalveFactor(Two(s), q);
      q, s := q / 2, s + 1;
    }
  }

  lemma HalveFactor(u: int, q: int)
    requires q % 2 == 0
    ensures u * q == 2 * u * (q / 2)
  {
    assert q == 2 * (q / 2);
  }

  method FindNonResidue(p: nat) returns (z: nat)
    requires OddPrime(p)
    ensures z >= 2 && Cong(Pow(z, (p - 1) / 2), -1, p)
    ensures forall y :: 2 <= y < z ==> LegendreSymbol(y, p) != -1
  {
    z := 2;
    ghost var z0 := NonResidueExists(p);
    LegendreIsEuler(z0, p);
    while LegendreSymbol(z, p) != -1
      invariant 2 <= z <= z0
      invariant forall y :: 2 <= y < z ==> LegendreSymbol(y, p) != -1
      decreases z0 - z
    {
      z := z + 1;
    }
    LegendreIsEuler(z, p);
  }

  method TonelliShanks(a: nat, p: nat) returns (x: nat, overflow: bool)
    requires OddPrime(p)
    requires 0 < a < p && Cong(Pow(a, (p - 1) / 2), 1, p)
    ensures !overflow ==> x < p && Cong(x * x, a, p)
    ensures overflow ==> !SmallShift(p)
    ensures !SmallShift(p) && a == p - 1 ==> overflow
  {
    OddPrimeIsOdd(p);
    var q, s := SplitPowerOfTwo(p - 1);
    if SmallShift(p) { ShiftBound(q, s, p); } else { ShiftTooLarge(q, s, p); }
    TonelliExponents(q, s, p);
    var z := FindNonResidue(p);
    var e := (q + 1) / 2;
    var c := ModPow(z, q, p);
    x := ModPow(a, e, p);
    var t := ModPow(a, q, p);
    TonelliStart(a, z, q, s, (p - 1) / 2, e, p);
    TonelliReduce(a, Pow(a, e), Pow(a, q), Pow(z, q), s, p);
    if a == p - 1 { MinusOneStaysMinusOne(q, t, p); }
    x, overflow := TonelliLoop(a, x, t, c, s, p);
  }

  lemma MinusOneStaysMinusOne(q: nat, t: nat, p: nat)
    requires p > 2 && q % 2 == 1 && t == ModPow(p - 1, q, p)
    ensures Cong(t, -1, p)
  {
    hide Pow, Cong;
    OddExponent(q);
    FromWitness(p - 1, -1, 1, p);
    CongPow(p - 1, -1, q, p);
    PowerReduced(p - 1, q, p);
    SelfCong(t, p);
    CongLinks(t, t, Pow(p - 1, q), -1, p);
  }

  lemma OddExponent(q: nat)
    requires q % 2 == 1
    ensures Pow(-1, q) == -1
  {
    PowMinusOneOdd(q / 2);
  }

  lemma PowerReduced(b: int, n: nat, p: int)
    requires p > 0
    ensures Cong(ModPow(b, n, p), Pow(b, n), p)
  {
    CongMod(Pow(b, n), p);
  }

  lemma SelfCong(x: int, p: int)
    requires p > 0
    ensures Cong(x, x, p)
  {
  }

  method TonelliLoop(a: nat, x0: nat, t0: nat, c0: nat, s: nat, p: nat) returns (x: nat, overflow: bool)
    requires OddPrime(p) && x0 < p && t0 < p && c0 < p
    requires TonelliInvariant(a, x0, t0, c0, s, p)
    ensures !overflow ==> x < p && Cong(x * x, a, p)
    ensures overflow ==> s >= 34
    ensures Cong(t0, -1, p) && s >= 34 ==> overflow
  {
    x, overflow := x0, false;
    var t: nat, c: nat, m: nat := t0, c0, s;
    MinusOneIsNotOne(t0, p);
    while t != 1
      invariant x < p && t < p && c < p && m <= s
      invariant Cong(t0, -1, p) && s >= 34 ==> t == t0 && m == s
      invariant TonelliInvariant(a, x, t, c, m, p)
      decreases m
    {
      x, t, c, m, overflow := TonelliBody(a, x, t, c, m, p);
      if overflow { return; }
    }
  }

  method TonelliBody(a: nat, x: nat, t: nat, c: nat, m: nat, p: nat)
      returns (x': nat, t': nat, c': nat, i: nat, overflow: bool)
    requires OddPrime(p) && x < p && t < p && c < p && t != 1
    requires TonelliInvariant(a, x, t, c, m, p)
    ensures i < m && (overflow <==> m - i - 1 >= 32)
    ensures !overflow ==> x' < p && t' < p && c' < p && TonelliInvariant(a, x', t', c', i, p)
    ensures overflow ==> m >= 34
    ensures Cong(t, -1, p) && m >= 34 ==> overflow
  {
    NotOne(t, p);
    OrderBelowM(t, m, p);
    i := OrderSearch(t, m, p);
    OrderOfMinusOne(t, i, p);
    if m - i - 1 >= 32 { return x, t, c, i, true; }
    overflow := false;
    TonelliPass(a, x, t, c, m, i, p);
    var b := ModPow(c, Two(m - i - 1), p);
    x' := (x * b) % p;
    t' := ((t * b % p) * b) % p;
    c' := (b * b) % p;
  }

  /// -1 has order 2, so its first squaring gives 1.
  lemma OrderOfMinusOne(t: nat, i: nat, p: nat)
    requires p > 0 && 1 <= i && !Cong(Sq(t, i - 1), 1, p)
    ensures Cong(t, -1, p) ==> i == 1
  {
    if Cong(t, -1, p) && i > 1 {
      CongMul(t, -1, t, -1, p);
      SqNext(t, 0);
      SqOneStays(t, 1, i - 1, p);
    }
  }

  lemma MinusOneIsNotOne(t: nat, p: nat)
    requires p > 2
    ensures Cong(t, -1, p) ==> t != 1
  {
    DivModUnique(1, p, 0, 1);
    DivModUnique(-1, p, -1, p - 1);
  }

  lemma NotOne(t: nat, p: nat)
    requires p > 1 && t < p && t != 1
    ensures !Cong(t, 1, p)
  {
    DivModUnique(1, p, 0, 1);
    DivModUnique(t, p, 0, t);
  }

  /// The inner loop: square until 1; the count is the least that works and below `m`.
  method OrderSearch(t: nat, m: nat, p: nat) returns (i: nat)
    requires OddPrime(p) && m >= 2 && Cong(Sq(t, m - 1), 1, p) && !Cong(t, 1, p)
    ensures 1 <= i < m && Cong(Sq(t, i), 1, p) && !Cong(Sq(t, i - 1), 1, p)
  {
    i := 1;
    var tmp := (t * t) % p;
    SqNext(t, 0);
    CongMod(t * t, p);
    DivModUnique(1, p, 0, 1);
    while tmp != 1
      invariant 1 <= i < m && 0 <= tmp < p
      invariant Cong(tmp, Sq(t, i), p) && !Cong(Sq(t, i - 1), 1, p)
      decreases m - i
    {
      DivModUnique(tmp, p, 0, tmp);
      SqNext(t, i);
      CongMul(tmp, Sq(t, i), tmp, Sq(t, i), p);
      CongMod(tmp * tmp, p);
      tmp := (tmp * tmp) % p;
      i := i + 1;
    }
  }

  /// Euler's criterion: the symbol tells squares from non-squares, for every odd prime.
  /// If (p-1)/2 kills a non-square, x^((p-1)/2) - 1 has one root too many.
  lemma EulerCriterion(a: nat, p: nat)
    requires OddPrime(p)
    ensures LegendreSymbol(a, p) == 0 <==> Cong(a, 0, p)
    ensures LegendreSymbol(a, p) == 1 <==> !Cong(a, 0, p) && IsSquare(a, p)
    ensures LegendreSymbol(a, p) == -1 <==> !IsSquare(a, p)
  {
    LegendreIsEuler(a, p);
    if Cong(a, 0, p) { RootMakesSquare(a, 0, p); }
    if !Cong(a, 0, p) && IsSquare(a, p) { SquareHasEulerOne(a, p); }
    if Cong(Pow(a, (p - 1) / 2), 1, p) { EulerOneIsSquare(a, p); }
    DivModUnique(1, p, 0, 1);
    DivModUnique(-1, p, -1, p - 1);
  }

  lemma EulerOneIsSquare(a: nat, p: nat)
    requires OddPrime(p) && Cong(Pow(a, (p - 1) / 2), 1, p)
    ensures IsSquare(a, p)
  {
    OddPrimeIsOdd(p);
    var h := (p - 1) / 2;
    var c := PowerMinusOne(h);
    var rs := seq(h, i => (i + 1) * (i + 1)) + [a];
    DivModUnique(1, p, 0, 1);
    DivModUnique(0, p, 0, 0);
    forall i | 0 <= i < |rs| ensures Cong(Eval(c, rs[i]), 0, p) {
      EvalPowerMinusOne(h, rs[i]);
      if i < h {
        DivModUnique(i + 1, p, 0, i + 1);
        RootMakesSquare(rs[i], i + 1, p);
        if Cong(rs[i], 0, p) { Euclid(p, i + 1, i + 1); }
        SquareHasEulerOne(rs[i], p);
      }
      CongAdd(Pow(rs[i], h), 1, 1, 1, p);
    }
    if !IsSquare(a, p) {
      forall i, j | 0 <= i < j < |rs| ensures !Cong(rs[i], rs[j], p) {
        if Cong(rs[i], rs[j], p) {
          if j == h { RootMakesSquare(a, i + 1, p); } else { DistinctHalves(i + 1, j + 1, p); }
        }
      }
      RootBound(p, c, rs);
    }
  }

  lemma DistinctHalves(x: int, y: int, p: nat)
    requires OddPrime(p) && 0 < x < y <= (p - 1) / 2
    ensures !Cong(x * x, y * y, p)
  {
    DivModUnique(x, p, 0, x);
    DivModUnique(y, p, 0, y);
    DivModUnique(-y, p, -1, p - y);
    if Cong(x * x, y * y, p) { SquaresAgree(p, x, y); }
  }
}

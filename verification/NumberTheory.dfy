/// Facts about a prime modulus that `src/ecsrp5.rs` relies on without stating:
/// Euclid's lemma, Fermat's little theorem, the root bound for polynomials over
/// the field, and from it the existence of a quadratic non-residue.
module NumberTheory {
  import opened ModArith

  ghost predicate IsPrime(p: int) {
    2 <= p && forall d {:trigger p % d} :: 2 <= d < p ==> p % d != 0
  }

  ghost predicate OddPrime(p: int) {
    IsPrime(p) && p > 2
  }

  lemma OddPrimeIsOdd(p: int)
    requires OddPrime(p)
    ensures p % 2 == 1
  {
    assert p % 2 != 0;
  }

  // ---- Euclid's lemma ----

  lemma {:induction false} EuclidReduced(p: int, a: int, b: int)
    requires IsPrime(p) && 0 < a < p && Cong(a * b, 0, p)
    ensures Cong(b, 0, p)
    decreases a
  {
    if a > 1 {
      var q, r := p / a, p % a;
      assert p == q * a + r;
      assert r != 0;
      CongMul(a * b, 0, q, q, p);
      assert p * b == a * b * q + r * b by {
        assert (q * a + r) * b == q * a * b + r * b;
      }
      FromWitness(p * b, 0, b, p);
      CongAdd(p * b, 0, a * b * q, 0 * q, p);
      EuclidReduced(p, r, b);
    }
  }

  lemma Euclid(p: int, a: int, b: int)
    requires IsPrime(p) && Cong(a * b, 0, p)
    ensures Cong(a, 0, p) || Cong(b, 0, p)
  {
    if !Cong(a, 0, p) {
      CongMod(a, p);
      CongMul(a % p, a, b, b, p);
      EuclidReduced(p, a % p, b);
    }
  }

  /// A non-zero factor cancels from a congruence.
  lemma Cancel(p: int, a: int, b: int, c: int)
    requires IsPrime(p) && !Cong(a, 0, p) && Cong(a * b, a * c, p)
    ensures Cong(b, c, p)
  {
    CongAdd(a * b, a * c, a * c, a * c, p);
    assert a * (b - c) == a * b - a * c;
    Euclid(p, a, b - c);
    CongAdd(b - c, 0, c, c, p);
  }

  lemma CancelRight(p: int, a: int, b: int, c: int)
    requires IsPrime(p) && !Cong(a, 0, p) && Cong(b * a, c * a, p)
    ensures Cong(b, c, p)
  {
    assert b * a == a * b && c * a == a * c;
    Cancel(p, a, b, c);
  }

  lemma {:induction false} PowNonZero(p: int, a: int, n: nat)
    requires IsPrime(p) && !Cong(a, 0, p)
    ensures !Cong(Pow(a, n), 0, p)
  {
    if n > 0 {
      PowNonZero(p, a, n - 1);
      if Cong(a * Pow(a, n - 1), 0, p) { Euclid(p, a, Pow(a, n - 1)); }
    }
  }

  /// Two numbers with equal squares differ at most in sign.
  lemma SquaresAgree(p: int, x: int, y: int)
    requires IsPrime(p) && Cong(x * x, y * y, p)
    ensures Cong(x, y, p) || Cong(x, -y, p)
  {
    CongAdd(x * x, y * y, y * y, y * y, p);
    assert (x - y) * (x + y) == x * x - y * y;
    Euclid(p, x - y, x + y);
    if Cong(x - y, 0, p) { CongAdd(x - y, 0, y, y, p); } else { CongAdd(x + y, 0, y, y, p); }
  }

  // ---- Fermat's little theorem, by the binomial theorem ----

  function Binomial(n: nat, k: nat): nat {
    if k == 0 then 1 else if n == 0 then 0 else Binomial(n - 1, k - 1) + Binomial(n - 1, k)
  }

  lemma {:induction false} BinomialAbsorb(n: nat, k: nat)
    requires n > 0 && k > 0
    ensures k * Binomial(n, k) == n * Binomial(n - 1, k - 1)
  {
    if n > 1 {
      BinomialAbsorb(n - 1, k);
      var u, v := Binomial(n - 1, k - 1), Binomial(n - 1, k);
      if k > 1 {
        BinomialAbsorb(n - 1, k - 1);
        AbsorbArithmetic(n, k, u, v, Binomial(n - 2, k - 2), Binomial(n - 2, k - 1));
      } else {
        assert u == 1;
      }
    } else {
      assert Binomial(0, k) == 0;
    }
  }

  lemma AbsorbArithmetic(n: int, k: int, u: int, v: int, s: int, t: int)
    requires k * v == (n - 1) * t && (k - 1) * u == (n - 1) * s && u == s + t
    ensures k * (u + v) == n * u
  {
    assert k * (u + v) == u + (k - 1) * u + k * v;
    assert (n - 1) * (s + t) == (n - 1) * s + (n - 1) * t;
  }

  lemma {:induction false} BinomialAbove(n: nat, k: nat)
    requires k > n
    ensures Binomial(n, k) == 0
  {
    if n > 0 { BinomialAbove(n - 1, k - 1); BinomialAbove(n - 1, k); }
  }

  /// The first `m` terms of the expansion of (1 + x)^n.
  function Expansion(n: nat, m: nat, x: int): int {
    if m == 0 then 0 else Expansion(n, m - 1, x) + Binomial(n, m - 1) * Pow(x, m - 1)
  }

  lemma {:induction false} ExpansionStep(n: nat, m: nat, x: int)
    ensures Expansion(n + 1, m + 1, x) == Expansion(n, m + 1, x) + x * Expansion(n, m, x)
  {
    if m > 0 {
      ExpansionStep(n, m - 1, x);
      ExpansionArithmetic(x, Binomial(n, m - 1), Binomial(n, m), Pow(x, m - 1), Expansion(n, m - 1, x));
    }
  }

  lemma ExpansionArithmetic(x: int, b: int, c: int, w: int, e: int)
    ensures (b + c) * (x * w) + x * e == c * (x * w) + x * (e + b * w)
  {
    assert (b + c) * (x * w) == b * (x * w) + c * (x * w);
    assert b * (x * w) == x * (b * w);
  }

  lemma {:induction false} BinomialTheorem(n: nat, x: int)
    ensures Pow(1 + x, n) == Expansion(n, n + 1, x)
  {
    if n > 0 {
      BinomialTheorem(n - 1, x);
      ExpansionStep(n - 1, n, x);
      BinomialAbove(n - 1, n);
    }
  }

  lemma {:induction false} ExpansionModPrime(p: int, m: nat, x: int)
    requires IsPrime(p) && 1 <= m <= p
    ensures Cong(Expansion(p, m, x), 1, p)
  {
    if m > 1 {
      ExpansionModPrime(p, m - 1, x);
      BinomialAbsorb(p, m - 1);
      var b := Binomial(p, m - 1);
      FromWitness((m - 1) * b, 0, Binomial(p - 1, m - 2), p);
      EuclidReduced(p, m - 1, b);
      CongMul(b, 0, Pow(x, m - 1), Pow(x, m - 1), p);
      CongAdd(Expansion(p, m - 1, x), 1, b * Pow(x, m - 1), 0 * Pow(x, m - 1), p);
    } else {
      assert Expansion(p, 1, x) == Expansion(p, 0, x) + Binomial(p, 0) * Pow(x, 0);
    }
  }

  lemma {:induction false} FrobeniusNat(p: int, a: nat)
    requires IsPrime(p)
    ensures Cong(Pow(a, p), a, p)
  {
    if a > 0 {
      FrobeniusNat(p, a - 1);
      BinomialTheorem(p, a - 1);
      ExpansionModPrime(p, p, a - 1);
      BinomialSelf(p);
      CongAdd(Expansion(p, p, a - 1), 1, Pow(a - 1, p), a - 1, p);
    } else {
      assert Pow(0, p) == 0 * Pow(0, p - 1);
    }
  }

  lemma {:induction false} BinomialSelf(n: nat)
    ensures Binomial(n, n) == 1
  {
    if n > 0 { BinomialSelf(n - 1); BinomialAbove(n - 1, n); }
  }

  lemma Fermat(p: int, a: int)
    requires IsPrime(p) && !Cong(a, 0, p)
    ensures Cong(Pow(a, p - 1), 1, p)
  {
    hide Pow, Cong;
    CongMod(a, p);
    CongPow(a % p, a, p, p);
    FrobeniusNat(p, a % p);
    CongLinks(Pow(a, p), Pow(a % p, p), a % p, a, p);
    PowStep(a, p);
    Cancel(p, a, Pow(a, p - 1), 1);
  }

  lemma PowStep(a: int, n: nat)
    requires n > 0
    ensures Pow(a, n) == a * Pow(a, n - 1)
  {
  }

  lemma CongLinks(x: int, y: int, z: int, w: int, p: int)
    requires p > 0 && Cong(y, x, p) && Cong(y, z, p) && Cong(z, w, p)
    ensures Cong(x, w, p)
  {
  }

  // ---- At most n roots for degree n ----

  /// Value of the polynomial with coefficients `c`, lowest degree first.
  function Eval(c: seq<int>, x: int): int {
    if c == [] then 0 else c[0] + x * Eval(c[1..], x)
  }

  /// Synthetic division by (x - r).
  function Quotient(c: seq<int>, r: int): (d: seq<int>)
    ensures c != [] ==> |d| == |c| - 1
    ensures |c| > 1 ==> d[|d| - 1] == c[|c| - 1]
  {
    if |c| <= 1 then [] else
      assert |c| == 2 ==> Eval(c[1..], r) == c[1] + r * Eval([], r);
      [Eval(c[1..], r)] + Quotient(c[1..], r)
  }

  lemma {:induction false} DivisionIdentity(c: seq<int>, r: int, x: int)
    ensures Eval(c, x) == Eval(c, r) + (x - r) * Eval(Quotient(c, r), x)
  {
    if |c| > 1 {
      DivisionIdentity(c[1..], r, x);
      var e, q := Eval(c[1..], r), Eval(Quotient(c[1..], r), x);
      assert Quotient(c, r)[1..] == Quotient(c[1..], r);
      assert Eval(Quotient(c, r), x) == e + x * q;
      HornerStep(x, r, e, q);
    } else if |c| == 1 {
      assert c[1..] == [];
    }
  }

  lemma HornerStep(x: int, r: int, e: int, q: int)
    ensures x * (e + (x - r) * q) == r * e + (x - r) * (e + x * q)
  {
    assert x * ((x - r) * q) == (x - r) * (x * q);
    assert (x - r) * (e + x * q) == (x - r) * e + (x - r) * (x * q);
  }

  ghost predicate DistinctRoots(p: int, c: seq<int>, rs: seq<int>)
    requires p > 0
  {
    && (forall i :: 0 <= i < |rs| ==> Cong(Eval(c, rs[i]), 0, p))
    && (forall i, j :: 0 <= i < j < |rs| ==> !Cong(rs[i], rs[j], p))
  }

  lemma {:induction false} RootBound(p: int, c: seq<int>, rs: seq<int>)
    requires IsPrime(p) && DistinctRoots(p, c, rs)
    requires c != [] && !Cong(c[|c| - 1], 0, p)
    ensures |rs| < |c|
    decreases |c|
  {
    if rs != [] {
      var r, rest := rs[0], rs[1..];
      if |c| == 1 {
        assert false;
      } else {
        var d := Quotient(c, r);
        forall i | 0 <= i < |rest| ensures Cong(Eval(d, rest[i]), 0, p) {
          var x := rest[i];
          assert x == rs[i + 1];
          DivisionIdentity(c, r, x);
          CongAdd(Eval(c, x), 0, Eval(c, r), 0, p);
          Euclid(p, x - r, Eval(d, x));
          if Cong(x - r, 0, p) { CongAdd(x - r, 0, r, r, p); }
        }
        RootBound(p, d, rest);
      }
    }
  }

  // ---- A quadratic non-residue exists ----

  /// Coefficients of x^n - 1 for n > 0.
  function PowerMinusOne(n: nat): (c: seq<int>)
    requires n > 0
  {
    [-1] + seq(n - 1, i => 0) + [1]
  }

  lemma {:induction false} EvalShifted(k: nat, x: int)
    ensures Eval(seq(k, i => 0) + [1], x) == Pow(x, k)
  {
    var c := seq(k, i => 0) + [1];
    if k > 0 {
      EvalShifted(k - 1, x);
      assert c[1..] == seq(k - 1, i => 0) + [1];
    } else {
      assert c == [1] && c[1..] == [];
      assert Eval([1], x) == 1 + x * Eval([], x);
    }
  }

  lemma EvalPowerMinusOne(n: nat, x: int)
    requires n > 0
    ensures Eval(PowerMinusOne(n), x) == Pow(x, n) - 1
  {
    EvalShifted(n - 1, x);
    assert PowerMinusOne(n)[1..] == seq(n - 1, i => 0) + [1];
  }

  /// Whatever is not killed by the exponent (p-1)/2 is sent to -1 by it.
  lemma EulerDichotomy(p: int, a: int)
    requires OddPrime(p) && !Cong(a, 0, p)
    ensures Cong(Pow(a, (p - 1) / 2), 1, p) || Cong(Pow(a, (p - 1) / 2), -1, p)
  {
    OddPrimeIsOdd(p);
    var h := (p - 1) / 2;
    Fermat(p, a);
    PowAdd(a, h, h);
    SquaresAgree(p, Pow(a, h), 1);
  }

  lemma NonResidueExists(p: int) returns (z: int)
    requires OddPrime(p)
    ensures 2 <= z < p && Cong(Pow(z, (p - 1) / 2), -1, p)
  {
    OddPrimeIsOdd(p);
    var h := (p - 1) / 2;
    var c, rs := PowerMinusOne(h), seq(p - 1, i => i + 1);
    if forall x :: 1 <= x < p ==> Cong(Pow(x, h), 1, p) {
      forall i | 0 <= i < |rs| ensures Cong(Eval(c, rs[i]), 0, p) {
        EvalPowerMinusOne(h, rs[i]);
        CongAdd(Pow(rs[i], h), 1, 1, 1, p);
      }
      forall i, j | 0 <= i < j < |rs| ensures !Cong(rs[i], rs[j], p) {
        if Cong(rs[i], rs[j], p) { CongSmall(rs[i], rs[j], p); }
      }
      DivModUnique(1, p, 0, 1);
      DivModUnique(0, p, 0, 0);
      RootBound(p, c, rs);
      assert false;
    }
    z :| 1 <= z < p && !Cong(Pow(z, h), 1, p);
    DivModUnique(z, p, 0, z);
    DivModUnique(0, p, 0, 0);
    EulerDichotomy(p, z);
    PowOne(h);
  }
}

/// `Point::scalar_mul` of `src/ecsrp5.rs`: double-and-add against n-fold addition.
///
/// Associativity of the group operation is the one hypothesis about the curve used
/// here; it is stated for `GroupAdd`, because `Point::add` itself is not associative
/// on a curve that has a point with y = 0.
module ScalarMul {
  import opened ModArith
  import opened CurvePoints

  ghost predicate AssociativeAt(c: Curve, s: Point, o: Point, t: Point)
    requires c.p > 2
  {
    OnCurve(c, s) && OnCurve(c, o) && OnCurve(c, t) ==>
      GroupAdd(c, GroupAdd(c, s, o), t) == GroupAdd(c, s, GroupAdd(c, o, t))
  }

  ghost predicate Associative(c: Curve)
    requires c.p > 2
  {
    forall s, o, t :: AssociativeAt(c, s, o, t)
  }

  lemma Assoc(c: Curve, s: Point, o: Point, t: Point)
    requires c.p > 2 && Associative(c) && OnCurve(c, s) && OnCurve(c, o) && OnCurve(c, t)
    ensures GroupAdd(c, GroupAdd(c, s, o), t) == GroupAdd(c, s, GroupAdd(c, o, t))
  {
    hide Add, GroupAdd, OnCurve;
    assert AssociativeAt(c, s, o, t);
  }

  lemma Unit(c: Curve, s: Point)
    requires c.p > 2 && OnCurve(c, s)
    ensures GroupAdd(c, INFINITY, s) == s && GroupAdd(c, s, INFINITY) == s
    ensures Add(c, INFINITY, s) == s && Add(c, s, INFINITY) == s
    ensures OnCurve(c, INFINITY)
  {
  }

  lemma AddIsGroupAdd(c: Curve, s: Point, o: Point)
    requires c.p > 2 && !(Vertical(s) && s == o)
    ensures Add(c, s, o) == GroupAdd(c, s, o)
  {
  }

  /// n-fold addition.
  ghost function Times(c: Curve, n: nat, s: Point): Point
    requires c.p > 2
  {
    if n == 0 then INFINITY else GroupAdd(c, s, Times(c, n - 1, s))
  }

  lemma {:induction false} TimesOnCurve(c: Curve, n: nat, s: Point)
    requires c.Valid() && OnCurve(c, s)
    ensures OnCurve(c, Times(c, n, s))
  {
    hide Add, GroupAdd;
    if n > 0 {
      TimesOnCurve(c, n - 1, s);
      GroupAddIsSum(c, s, Times(c, n - 1, s));
    }
  }

  lemma {:induction false} TimesAdd(c: Curve, m: nat, n: nat, s: Point)
    requires c.Valid() && Associative(c) && OnCurve(c, s)
    ensures Times(c, m + n, s) == GroupAdd(c, Times(c, m, s), Times(c, n, s))
  {
    hide Add, GroupAdd, OnCurve;
    TimesOnCurve(c, n, s);
    if m > 0 {
      TimesOnCurve(c, m - 1, s);
      TimesAdd(c, m - 1, n, s);
      Assoc(c, s, Times(c, m - 1, s), Times(c, n, s));
    } else {
      Unit(c, Times(c, n, s));
    }
  }

  lemma {:induction false} TimesTimes(c: Curve, m: nat, n: nat, s: Point)
    requires c.Valid() && Associative(c) && OnCurve(c, s)
    ensures Times(c, m, Times(c, n, s)) == Times(c, m * n, s)
  {
    hide Add, GroupAdd, OnCurve;
    if m > 0 {
      TimesTimes(c, m - 1, n, s);
      TimesAdd(c, n, (m - 1) * n, s);
      assert n + (m - 1) * n == m * n;
    } else {
      assert 0 * n == 0;
    }
  }

  lemma {:induction false} TimesInfinity(c: Curve, n: nat)
    requires c.p > 2
    ensures Times(c, n, INFINITY) == INFINITY
  {
    hide Add, GroupAdd;
    Unit(c, INFINITY);
    if n > 0 { TimesInfinity(c, n - 1); }
  }

  /// Reducing the scalar modulo a multiple of the order changes nothing.
  lemma TimesMod(c: Curve, n: nat, r: nat, s: Point)
    requires c.Valid() && Associative(c) && OnCurve(c, s)
    requires r > 0 && Times(c, r, s) == INFINITY
    ensures Times(c, n % r, s) == Times(c, n, s)
  {
    hide Add, GroupAdd, OnCurve;
    TimesTimes(c, n / r, r, s);
    TimesInfinity(c, n / r);
    TimesAdd(c, (n / r) * r, n % r, s);
    TimesOnCurve(c, n % r, s);
    Unit(c, Times(c, n % r, s));
  }

  // ---- Double and add ----

  /// The loop of `scalar_mul` from its bit `i` on, for the rest `n` of the scalar.
  function DoubleAndAdd(c: Curve, result: Point, base: Point, n: nat): Point
    requires c.p > 2
    decreases n
  {
    if n == 0 then result
    else DoubleAndAdd(c, if n % 2 == 1 then Add(c, result, base) else result, Add(c, base, base), n / 2)
  }

  function ScalarMulSpec(c: Curve, n: nat, s: Point): Point
    requires c.p > 2
  {
    DoubleAndAdd(c, INFINITY, s, n)
  }

  function Bits(n: nat): nat {
    if n == 0 then 0 else 1 + Bits(n / 2)
  }

  predicate Bit(n: nat, i: nat) {
    (n / Two(i)) % 2 == 1
  }

  lemma {:induction false} ShiftNext(n: nat, i: nat)
    ensures n / Two(i) / 2 == n / Two(i + 1)
  {
    var t := Two(i);
    var q, r := n / t, n % t;
    var q', r' := q / 2, q % 2;
    assert n == t * q + r && q == 2 * q' + r';
    ShiftArithmetic(n, t, q', r', r);
    DivModUnique(n, 2 * t, q', t * r' + r);
  }

  lemma ShiftArithmetic(n: int, t: int, q': int, r': int, r: int)
    requires n == t * (2 * q' + r') + r && 0 <= r < t && 0 <= r' < 2
    ensures n == q' * (2 * t) + (t * r' + r) && 0 <= t * r' + r < 2 * t
  {
    assert t * (2 * q' + r') == q' * (2 * t) + t * r';
    if r' == 0 { assert t * r' == 0; } else { assert t * r' == t; }
  }

  lemma {:induction false} BitsEnd(n: nat, i: nat)
    ensures Bits(n) == i ==> n / Two(i) == 0
    ensures Bits(n) > i ==> n / Two(i) > 0
    decreases n
  {
    if i == 0 {
      assert Two(0) == 1;
    } else if n > 0 {
      BitsEnd(n / 2, i - 1);
      DivTwice(n, i - 1);
    } else {
      assert 0 / Two(i) == 0;
    }
  }

  lemma {:induction false} DivTwice(n: nat, i: nat)
    ensures n / 2 / Two(i) == n / Two(i + 1)
    decreases i
  {
    if i > 0 {
      DivTwice(n, i - 1);
      ShiftNext(n / 2, i - 1);
      ShiftNext(n, i);
    }
  }

  /// `Point::scalar_mul`.
  method ScalarMul(c: Curve, s: Point, scalar: nat) returns (result: Point)
    requires c.p > 2
    ensures result == ScalarMulSpec(c, scalar, s)
  {
    hide Add;
    result := INFINITY;
    var base := s;
    var bits := Bits(scalar);
    assert scalar / Two(0) == scalar;
    for i := 0 to bits
      invariant DoubleAndAdd(c, result, base, scalar / Two(i)) == ScalarMulSpec(c, scalar, s)
    {
      ShiftNext(scalar, i);
      BitsEnd(scalar, i);
      if Bit(scalar, i) {
        result := Add(c, result, base);
      }
      base := Add(c, base, base);
    }
    BitsEnd(scalar, bits);
  }

  // ---- When double-and-add is n-fold addition ----

  /// No repeated doubling of `s` meets a finite point with y = 0.
  ghost predicate DoublesSafely(c: Curve, s: Point)
    requires c.p > 2
  {
    forall i: nat {:trigger Two(i)} :: !Vertical(Times(c, Two(i), s))
  }

  lemma TimesTwo(c: Curve, s: Point)
    requires c.p > 2 && OnCurve(c, s)
    ensures Times(c, 1, s) == s && Times(c, 2, s) == GroupAdd(c, s, s)
  {
    hide Add, GroupAdd, OnCurve;
    Unit(c, s);
    assert Times(c, 0, s) == INFINITY;
    assert Times(c, 1, s) == GroupAdd(c, s, Times(c, 0, s));
    assert Times(c, 2, s) == GroupAdd(c, s, Times(c, 1, s));
  }

  lemma SafeDouble(c: Curve, s: Point)
    requires c.Valid() && Associative(c) && OnCurve(c, s) && DoublesSafely(c, s)
    ensures !Vertical(s) && DoublesSafely(c, GroupAdd(c, s, s))
  {
    hide Add, GroupAdd, OnCurve, Vertical;
    TimesTwo(c, s);
    assert Two(0) == 1;
    forall i: nat ensures !Vertical(Times(c, Two(i), GroupAdd(c, s, s))) {
      TimesTimes(c, Two(i), 2, s);
      assert Two(i + 1) == Two(i) * 2;
    }
  }

  /// One step: 2m times `s` is m times its double, and one more is added in front.
  lemma TimesHalves(c: Curve, n: nat, s: Point)
    requires c.Valid() && Associative(c) && OnCurve(c, s)
    ensures var half := Times(c, n / 2, GroupAdd(c, s, s));
            Times(c, n, s) == if n % 2 == 1 then GroupAdd(c, s, half) else half
  {
    hide Add, GroupAdd, OnCurve;
    TimesTwo(c, s);
    TimesTimes(c, n / 2, 2, s);
    assert n / 2 * 2 == n - n % 2;
  }

  /// Invariant form: `result` plus n times `base`.
  lemma {:induction false} DoubleAndAddCorrect(c: Curve, result: Point, base: Point, n: nat)
    requires c.Valid() && Associative(c) && OnCurve(c, result) && OnCurve(c, base)
    requires DoublesSafely(c, base)
    ensures DoubleAndAdd(c, result, base, n) == GroupAdd(c, result, Times(c, n, base))
    decreases n
  {
    hide Add, GroupAdd, OnCurve, DoublesSafely, Vertical;
    if n > 0 {
      var b2, sum := GroupAdd(c, base, base), GroupAdd(c, result, base);
      var half := Times(c, n / 2, b2);
      SafeDouble(c, base);
      AddIsGroupAdd(c, base, base);
      AddIsGroupAdd(c, result, base);
      GroupAddIsSum(c, base, base);
      GroupAddIsSum(c, result, base);
      TimesOnCurve(c, n / 2, b2);
      TimesHalves(c, n, base);
      if n % 2 == 1 {
        DoubleAndAddCorrect(c, sum, b2, n / 2);
        Assoc(c, result, base, half);
      } else {
        DoubleAndAddCorrect(c, result, b2, n / 2);
      }
    } else {
      Unit(c, result);
    }
  }

  lemma ScalarMulSafe(c: Curve, s: Point, n: nat)
    requires c.Valid() && Associative(c) && OnCurve(c, s) && DoublesSafely(c, s)
    ensures ScalarMulSpec(c, n, s) == Times(c, n, s)
  {
    hide Add, GroupAdd, OnCurve, DoublesSafely;
    Unit(c, s);
    DoubleAndAddCorrect(c, INFINITY, s, n);
    TimesOnCurve(c, n, s);
    Unit(c, Times(c, n, s));
  }

  /// Double-and-add is n-fold addition for every n exactly when no doubling of the
  /// point on the way meets y = 0.
  lemma ScalarMulExact(c: Curve, s: Point)
    requires c.Valid() && Associative(c) && OnCurve(c, s)
    ensures DoublesSafely(c, s) <==> forall n: nat :: ScalarMulSpec(c, n, s) == Times(c, n, s)
  {
    hide Add, GroupAdd, OnCurve, DoublesSafely, ScalarMulSpec;
    if DoublesSafely(c, s) {
      forall n: nat ensures ScalarMulSpec(c, n, s) == Times(c, n, s) {
        ScalarMulSafe(c, s, n);
      }
    } else {
      var i := FirstVertical(c, s);
      PowerOfTwoFails(c, s, i);
    }
  }

  lemma FirstVertical(c: Curve, s: Point) returns (i: nat)
    requires c.p > 2 && !DoublesSafely(c, s)
    ensures Vertical(Times(c, Two(i), s))
    ensures forall j: nat :: j < i ==> !Vertical(Times(c, Two(j), s))
  {
    var k: nat :| Vertical(Times(c, Two(k), s));
    i := 0;
    while !Vertical(Times(c, Two(i), s))
      invariant i <= k
      invariant forall j: nat :: j < i ==> !Vertical(Times(c, Two(j), s))
      decreases k - i
    {
      i := i + 1;
    }
  }

  /// At the scalar 2^(i+1) the code returns a finite point where the sum is infinity.
  lemma PowerOfTwoFails(c: Curve, s: Point, i: nat)
    requires c.Valid() && Associative(c) && OnCurve(c, s)
    requires Vertical(Times(c, Two(i), s)) && forall j: nat :: j < i ==> !Vertical(Times(c, Two(j), s))
    ensures ScalarMulSpec(c, Two(i + 1), s) != Times(c, Two(i + 1), s)
  {
    hide Add, OnCurve;
    TimesTwo(c, s);
    assert Times(c, Two(0), s) == s;
    PowerOfTwoRun(c, s, 0, i);
    var v := Times(c, Two(i), s);
    TimesOnCurve(c, Two(i), s);
    TimesAdd(c, Two(i), Two(i), s);
    assert Two(i + 1) == Two(i) + Two(i);
    VerticalDoubling(c, v);
  }

  lemma {:induction false} PowerOfTwoRun(c: Curve, s: Point, j: nat, i: nat)
    requires c.Valid() && Associative(c) && OnCurve(c, s) && j <= i
    requires forall k: nat :: k < i ==> !Vertical(Times(c, Two(k), s))
    ensures DoubleAndAdd(c, INFINITY, Times(c, Two(j), s), Two(i + 1 - j))
         == Add(c, Times(c, Two(i), s), Times(c, Two(i), s))
    decreases i - j
  {
    hide Add, GroupAdd, OnCurve, Vertical;
    var b := Times(c, Two(j), s);
    var n := Two(i + 1 - j);
    assert n == 2 * Two(i - j);
    assert DoubleAndAdd(c, INFINITY, b, n) == DoubleAndAdd(c, INFINITY, Add(c, b, b), Two(i - j));
    if j < i {
      TimesAdd(c, Two(j), Two(j), s);
      assert Two(j + 1) == Two(j) + Two(j);
      AddIsGroupAdd(c, b, b);
      PowerOfTwoRun(c, s, j + 1, i);
    } else {
      OneMore(c, Add(c, b, b));
    }
  }

  lemma OneMore(c: Curve, d: Point)
    requires c.p > 2
    ensures DoubleAndAdd(c, INFINITY, d, Two(0)) == d
  {
    hide FromSlope;
    assert DoubleAndAdd(c, INFINITY, d, 1) == DoubleAndAdd(c, Add(c, INFINITY, d), Add(c, d, d), 0);
  }

  // ---- Odd order ----

  ghost predicate OddOrder(c: Curve, s: Point, r: nat)
    requires c.p > 2
  {
    r % 2 == 1 && Times(c, r, s) == INFINITY
  }

  lemma OddOrderMultiple(c: Curve, s: Point, r: nat, k: nat)
    requires c.Valid() && Associative(c) && OnCurve(c, s) && OddOrder(c, s, r)
    ensures OnCurve(c, Times(c, k, s)) && OddOrder(c, Times(c, k, s), r)
  {
    hide Add, GroupAdd, OnCurve;
    TimesOnCurve(c, k, s);
    TimesTimes(c, r, k, s);
    TimesTimes(c, k, r, s);
    TimesInfinity(c, k);
    assert r * k == k * r;
  }

  /// A point of odd order does not have y = 0.
  lemma OddOrderNotVertical(c: Curve, v: Point, r: nat)
    requires c.Valid() && Associative(c) && OnCurve(c, v) && OddOrder(c, v, r)
    ensures !Vertical(v)
  {
    hide Add, OnCurve;
    if Vertical(v) {
      TimesInfinity(c, r / 2);
      TimesHalves(c, r, v);
      Unit(c, v);
    }
  }

  /// A point of odd order never doubles into y = 0.
  lemma OddOrderIsSafe(c: Curve, s: Point, r: nat)
    requires c.Valid() && Associative(c) && OnCurve(c, s) && OddOrder(c, s, r)
    ensures DoublesSafely(c, s)
  {
    hide Add, GroupAdd, OnCurve, Vertical, OddOrder;
    forall i: nat ensures !Vertical(Times(c, Two(i), s)) {
      OddOrderMultiple(c, s, r, Two(i));
      OddOrderNotVertical(c, Times(c, Two(i), s), r);
    }
  }

  /// On the multiples of a point of odd order, `scalar_mul` multiplies the scalars.
  lemma OddOrderMul(c: Curve, s: Point, r: nat, k: nat, n: nat)
    requires c.Valid() && Associative(c) && OnCurve(c, s) && OddOrder(c, s, r)
    ensures ScalarMulSpec(c, n, Times(c, k, s)) == Times(c, n * k, s)
  {
    hide Add, GroupAdd, OnCurve, OddOrder, ScalarMulSpec, DoublesSafely;
    OddOrderMultiple(c, s, r, k);
    OddOrderIsSafe(c, Times(c, k, s), r);
    ScalarMulSafe(c, Times(c, k, s), n);
    TimesTimes(c, n, k, s);
  }
}

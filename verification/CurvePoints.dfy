/// Points and addition of `src/ecsrp5.rs` on y^2 = x^3 + a x + b over any prime field
/// with p > 3, checked against the addition rules of section 2.2.1 of SEC 1.
module CurvePoints {
  import opened ModArith
  import opened NumberTheory
  import opened FieldSqrt

  datatype Curve = Curve(p: nat, a: nat, b: nat) {
    ghost predicate Valid() {
      OddPrime(p) && p > 3 && a < p && b < p
    }
  }

  datatype Point = Point(x: nat, y: nat, infinity: bool)

  const INFINITY := Point(0, 0, true)

  function Rhs(c: Curve, x: int): int {
    x * x * x + c.a * x + c.b
  }

  ghost predicate OnCurve(c: Curve, pt: Point) {
    if pt.infinity then pt == INFINITY
    else pt.x < c.p && pt.y < c.p && Cong(pt.y * pt.y, Rhs(c, pt.x), c.p)
  }

  /// A finite point of order two.
  predicate Vertical(pt: Point) {
    !pt.infinity && pt.y == 0
  }

  // ---- The code's operations ----

  /// The code's subtraction of reduced or unreduced values, with its two branches.
  function SubMod(u: nat, v: nat, p: nat): nat
    requires p > 0
  {
    if u >= v then (u - v) % p else (p - (v - u) % p) % p
  }

  function Slope(c: Curve, s: Point, o: Point): nat
    requires c.p > 2
  {
    if s.x == o.x && s.y == o.y then
      ((3 * s.x * s.x + c.a) % c.p * ModInv(2 * s.y % c.p, c.p)) % c.p
    else
      (SubMod(o.y, s.y, c.p) * ModInv(SubMod(o.x, s.x, c.p), c.p)) % c.p
  }

  function FromSlope(c: Curve, lam: nat, s: Point, o: Point): Point
    requires c.p > 2
  {
    var x3 := SubMod(lam * lam % c.p, (s.x + o.x) % c.p, c.p);
    Point(x3, SubMod(lam * SubMod(s.x, x3, c.p) % c.p, s.y, c.p), false)
  }

  /// `Point::add`.
  function Add(c: Curve, s: Point, o: Point): Point
    requires c.p > 2
  {
    if s.infinity then o
    else if o.infinity then s
    else if s.x == o.x && s.y != o.y then INFINITY
    else FromSlope(c, Slope(c, s, o), s, o)
  }

  // ---- The rules of SEC 1 ----

  /// `lam` is the slope of the chord through two points, or of the tangent at one.
  ghost predicate IsSlope(c: Curve, lam: int, s: Point, o: Point)
    requires c.p > 0
  {
    if s == o then Cong(lam * (2 * s.y), 3 * s.x * s.x + c.a, c.p)
    else Cong(lam * (o.x - s.x), o.y - s.y, c.p)
  }

  ghost predicate SumBySlope(c: Curve, lam: int, s: Point, o: Point, r: Point)
    requires c.p > 0
  {
    && !r.infinity && r.x < c.p && r.y < c.p
    && Cong(r.x, lam * lam - s.x - o.x, c.p)
    && Cong(r.y, lam * (s.x - r.x) - s.y, c.p)
  }

  ghost predicate IsSum(c: Curve, s: Point, o: Point, r: Point)
    requires c.p > 0
  {
    if s.infinity then r == o
    else if o.infinity then r == s
    else if s.x == o.x && Cong(s.y + o.y, 0, c.p) then r == INFINITY
    else exists lam :: IsSlope(c, lam, s, o) && SumBySlope(c, lam, s, o, r)
  }

  // ---- Subtraction and slope are what they should be ----

  lemma SubModCong(u: nat, v: nat, p: nat)
    requires p > 0
    ensures SubMod(u, v, p) < p && Cong(SubMod(u, v, p), u - v, p)
  {
    if u >= v {
      CongMod(u - v, p);
    } else {
      var d := (v - u) % p;
      CongMod(v - u, p);
      CongMod(p - d, p);
      FromWitness(p - d, -d, 1, p);
      CongAdd(0, 0, d, v - u, p);
    }
  }

  lemma SlopeIsSlope(c: Curve, s: Point, o: Point)
    requires c.Valid() && OnCurve(c, s) && OnCurve(c, o) && !s.infinity && !o.infinity
    requires s.x != o.x || (s == o && s.y != 0)
    ensures IsSlope(c, Slope(c, s, o), s, o)
  {
    var p := c.p;
    var lam := Slope(c, s, o);
    var n, d := if s == o then (3 * s.x * s.x + c.a) % p else SubMod(o.y, s.y, p),
                if s == o then 2 * s.y % p else SubMod(o.x, s.x, p);
    var n', d' := if s == o then 3 * s.x * s.x + c.a else o.y - s.y,
                  if s == o then 2 * s.y else o.x - s.x;
    if s == o {
      CongMod(n', p);
      CongMod(d', p);
      DoubleNonZero(p, s.y);
    } else {
      SubModCong(o.y, s.y, p);
      SubModCong(o.x, s.x, p);
      DifferenceNonZero(p, s.x, o.x);
    }
    assert Cong(n, n', p) && Cong(d, d', p) && !Cong(d, 0, p);
    assert lam == (n * ModInv(d, p)) % p;
    QuotientTimesDivisor(p, n, d, lam);
    CongMul(lam, lam, d, d', p);
  }

  lemma QuotientTimesDivisor(p: nat, n: nat, d: nat, q: nat)
    requires OddPrime(p) && !Cong(d, 0, p) && q == (n * ModInv(d, p)) % p
    ensures Cong(q * d, n, p)
  {
    var v := ModInv(d, p);
    ModInvCorrect(d, p);
    CongMod(n * v, p);
    CongMul(q, n * v, d, d, p);
    CongMul(n, n, d * v, 1, p);
    Regroup(n, v, d);
  }

  lemma DoubleNonZero(p: nat, y: nat)
    requires OddPrime(p) && 0 < y < p
    ensures !Cong(2 * y, 0, p)
  {
    DivModUnique(0, p, 0, 0);
    DivModUnique(2, p, 0, 2);
    DivModUnique(y, p, 0, y);
    if Cong(2 * y, 0, p) { Euclid(p, 2, y); }
  }

  lemma DifferenceNonZero(p: nat, x: nat, y: nat)
    requires p > 0 && x < p && y < p && x != y
    ensures !Cong(y - x, 0, p)
  {
    if Cong(y - x, 0, p) {
      CongAdd(y - x, 0, x, x, p);
      CongSmall(y, x, p);
    }
  }

  // ---- Closure: the third point of a line is on the curve ----

  /// x^3 + a x + b minus the square of the line y = lam (x - x1) + y1, written as a
  /// product of three linear factors plus a linear remainder al x + be.
  lemma LineMeetsCubic(x: int, x1: int, x2: int, x3: int, y1: int, lam: int, a: int, b: int, al: int, be: int)
    requires x3 == lam * lam - x1 - x2
    requires al == a - 2 * lam * (y1 - lam * x1) - (x1 * x2 + x1 * x3 + x2 * x3)
    requires be == b - (y1 - lam * x1) * (y1 - lam * x1) + x1 * x2 * x3
    ensures x * x * x + a * x + b - (lam * (x - x1) + y1) * (lam * (x - x1) + y1)
         == (x - x1) * (x - x2) * (x - x3) + al * x + be
  {
    var n := y1 - lam * x1;
    assert lam * (x - x1) + y1 == lam * x + n;
    var pairs := x1 * x2 + x1 * x3 + x2 * x3;
    SquareOfLine(lam * x, lam, x, n);
    ProductOfRoots(x, x1, x2, x3, lam * lam, pairs);
    assert al * x == a * x - 2 * lam * n * x - pairs * x;
  }

  lemma SquareOfLine(lx: int, lam: int, x: int, n: int)
    requires lx == lam * x
    ensures (lx + n) * (lx + n) == lam * lam * (x * x) + 2 * lam * n * x + n * n
  {
    assert (lx + n) * (lx + n) == lx * lx + 2 * lx * n + n * n;
    assert lx * lx == lam * lam * (x * x);
    assert lx * n == lam * n * x;
  }

  lemma ProductOfRoots(x: int, x1: int, x2: int, x3: int, sum: int, pairs: int)
    requires sum == x1 + x2 + x3 && pairs == x1 * x2 + x1 * x3 + x2 * x3
    ensures (x - x1) * (x - x2) * (x - x3) == x * x * x - sum * (x * x) + pairs * x - x1 * x2 * x3
  {
    var q := x * x - (x1 + x2) * x + x1 * x2;
    assert (x - x1) * (x - x2) == q;
    assert q * (x - x3) == q * x - q * x3;
    assert q * x == x * x * x - (x1 + x2) * (x * x) + x1 * x2 * x;
    assert q * x3 == x3 * (x * x) - (x1 * x3 + x2 * x3) * x + x1 * x2 * x3;
  }

  /// Linear coefficient of the remainder.
  ghost function RemSlope(c: Curve, lam: int, x1: int, y1: int, x2: int): int {
    var x3 := lam * lam - x1 - x2;
    c.a - 2 * lam * (y1 - lam * x1) - (x1 * x2 + x1 * x3 + x2 * x3)
  }

  /// Constant coefficient of the remainder.
  ghost function RemConst(c: Curve, lam: int, x1: int, y1: int, x2: int): int {
    c.b - (y1 - lam * x1) * (y1 - lam * x1) + x1 * x2 * (lam * lam - x1 - x2)
  }

  /// The remainder vanishes at a point of the line that is on the curve.
  lemma RemainderVanishes(c: Curve, lam: int, x1: int, y1: int, x2: int, x: int, y: int)
    requires c.p > 0 && (x == x1 || x == x2)
    requires Cong(lam * (x - x1) + y1, y, c.p) && Cong(y * y, Rhs(c, x), c.p)
    ensures Cong(RemSlope(c, lam, x1, y1, x2) * x + RemConst(c, lam, x1, y1, x2), 0, c.p)
  {
    var al, be := RemSlope(c, lam, x1, y1, x2), RemConst(c, lam, x1, y1, x2);
    var l := lam * (x - x1) + y1;
    LineMeetsCubic(x, x1, x2, lam * lam - x1 - x2, y1, lam, c.a, c.b, al, be);
    assert Rhs(c, x) - l * l == al * x + be;
    CongMul(l, y, l, y, c.p);
    CongAdd(Rhs(c, x), l * l, l * l, l * l, c.p);
  }

  lemma RemainderZeroChord(c: Curve, lam: int, s: Point, o: Point)
    requires c.Valid() && OnCurve(c, s) && OnCurve(c, o) && !s.infinity && !o.infinity
    requires s.x != o.x && IsSlope(c, lam, s, o)
    ensures Cong(RemSlope(c, lam, s.x, s.y, o.x), 0, c.p)
  {
    var al, be := RemSlope(c, lam, s.x, s.y, o.x), RemConst(c, lam, s.x, s.y, o.x);
    RemainderVanishes(c, lam, s.x, s.y, o.x, s.x, s.y);
    CongAdd(lam * (o.x - s.x), o.y - s.y, s.y, s.y, c.p);
    RemainderVanishes(c, lam, s.x, s.y, o.x, o.x, o.y);
    DifferenceNonZero(c.p, s.x, o.x);
    TwoRootsOfLine(c.p, al, be, s.x, o.x);
  }

  lemma TwoRootsOfLine(p: nat, al: int, be: int, x: int, x': int)
    requires IsPrime(p) && Cong(al * x + be, 0, p) && Cong(al * x' + be, 0, p) && !Cong(x' - x, 0, p)
    ensures Cong(al, 0, p)
  {
    CongAdd(al * x' + be, 0, al * x + be, 0, p);
    assert al * (x' - x) == al * x' + be - (al * x + be);
    Euclid(p, al, x' - x);
  }

  lemma RemainderZeroTangent(c: Curve, lam: int, s: Point)
    requires c.Valid() && IsSlope(c, lam, s, s)
    ensures Cong(RemSlope(c, lam, s.x, s.y, s.x), 0, c.p)
  {
    TangentIdentity(c.a, lam, s.x, s.y);
    CongAdd(3 * s.x * s.x + c.a, lam * (2 * s.y), lam * (2 * s.y), lam * (2 * s.y), c.p);
  }

  lemma TangentIdentity(a: int, lam: int, x: int, y: int)
    ensures var x3 := lam * lam - x - x;
            a - 2 * lam * (y - lam * x) - (x * x + x * x3 + x * x3) == 3 * x * x + a - lam * (2 * y)
  {
  }

  /// With a vanishing remainder, the third root of the line lies on line and curve.
  lemma ThirdRoot(c: Curve, lam: int, x1: int, y1: int, x2: int)
    requires c.p > 0 && Cong(y1 * y1, Rhs(c, x1), c.p)
    requires Cong(RemSlope(c, lam, x1, y1, x2), 0, c.p)
    ensures var x3 := lam * lam - x1 - x2;
            Cong((lam * (x3 - x1) + y1) * (lam * (x3 - x1) + y1), Rhs(c, x3), c.p)
  {
    var p := c.p;
    var al, be := RemSlope(c, lam, x1, y1, x2), RemConst(c, lam, x1, y1, x2);
    var x3 := lam * lam - x1 - x2;
    var l := lam * (x3 - x1) + y1;
    RemainderVanishes(c, lam, x1, y1, x2, x1, y1);
    CongMul(al, 0, x1, x1, p);
    CongAdd(al * x1 + be, 0, al * x1, 0 * x1, p);
    CongMul(al, 0, x3, x3, p);
    CongAdd(al * x3, 0 * x3, be, 0, p);
    LineMeetsCubic(x3, x1, x2, x3, y1, lam, c.a, c.b, al, be);
    CongAdd(Rhs(c, x3) - l * l, 0, l * l, l * l, p);
  }

  lemma ThirdPointOnCurve(c: Curve, lam: int, s: Point, o: Point, r: Point)
    requires c.Valid() && OnCurve(c, s) && !s.infinity
    requires Cong(RemSlope(c, lam, s.x, s.y, o.x), 0, c.p)
    requires SumBySlope(c, lam, s, o, r)
    ensures OnCurve(c, r)
  {
    var x3 := lam * lam - s.x - o.x;
    ThirdRoot(c, lam, s.x, s.y, o.x);
    NegatedOrdinate(c.p, lam, s.x, s.y, r.x, r.y, x3);
    RhsCong(c, r.x, x3);
  }

  lemma NegatedOrdinate(p: nat, lam: int, x1: int, y1: int, x: int, y: int, x3: int)
    requires p > 0 && Cong(x, x3, p) && Cong(y, lam * (x1 - x) - y1, p)
    ensures Cong(y * y, (lam * (x3 - x1) + y1) * (lam * (x3 - x1) + y1), p)
  {
    assert x3 - x1 == -(x1 - x3);
    CongAdd(x1, x1, x, x3, p);
    CongMul(lam, lam, x1 - x, x1 - x3, p);
    CongAdd(lam * (x1 - x), lam * (x1 - x3), y1, y1, p);
    CongMul(y, lam * (x1 - x3) - y1, y, lam * (x1 - x3) - y1, p);
    SquareOfOpposite(lam, x1 - x3, y1);
  }

  lemma SquareOfOpposite(lam: int, d: int, y: int)
    ensures (lam * d - y) * (lam * d - y) == (lam * -d + y) * (lam * -d + y)
  {
    assert lam * -d + y == -(lam * d - y);
  }

  lemma RhsCong(c: Curve, x: int, x': int)
    requires c.p > 0 && Cong(x, x', c.p)
    ensures Cong(Rhs(c, x), Rhs(c, x'), c.p)
  {
    CongMul(x, x', x, x', c.p);
    CongMul(x * x, x' * x', x, x', c.p);
    CongMul(c.a, c.a, x, x', c.p);
    CongAdd(x * x * x, x' * x' * x', c.a * x, c.a * x', c.p);
    CongAdd(x * x * x + c.a * x, x' * x' * x' + c.a * x', c.b, c.b, c.p);
  }

  lemma FromSlopeSums(c: Curve, lam: nat, s: Point, o: Point)
    requires c.p > 2
    ensures SumBySlope(c, lam, s, o, FromSlope(c, lam, s, o))
  {
    var p := c.p;
    var r := FromSlope(c, lam, s, o);
    CongMod(lam * lam, p);
    CongMod(s.x + o.x, p);
    SubModCong(lam * lam % p, (s.x + o.x) % p, p);
    CongAdd(lam * lam % p, lam * lam, (s.x + o.x) % p, s.x + o.x, p);
    SubModCong(s.x, r.x, p);
    CongMul(lam, lam, SubMod(s.x, r.x, p), s.x - r.x, p);
    CongMod(lam * SubMod(s.x, r.x, p), p);
    SubModCong(lam * SubMod(s.x, r.x, p) % p, s.y, p);
    CongAdd(lam * SubMod(s.x, r.x, p) % p, lam * (s.x - r.x), s.y, s.y, p);
  }

  /// Points with one x coordinate have opposite y coordinates or are equal.
  lemma SameX(c: Curve, s: Point, o: Point)
    requires c.Valid() && OnCurve(c, s) && OnCurve(c, o) && !s.infinity && !o.infinity && s.x == o.x
    ensures s == o || Cong(s.y + o.y, 0, c.p)
    ensures s == o && Cong(s.y + o.y, 0, c.p) ==> s.y == 0
  {
    SameSquare(c.p, s.y, o.y);
  }

  lemma SameSquare(p: nat, y: int, y': int)
    requires OddPrime(p) && 0 <= y < p && 0 <= y' < p && Cong(y * y, y' * y', p)
    ensures y == y' || Cong(y + y', 0, p)
    ensures y == y' && Cong(y + y', 0, p) ==> y == 0
  {
    SquaresAgree(p, y, y');
    if Cong(y, y', p) { CongSmall(y, y', p); } else { CongAdd(y, -y', y', y', p); }
    if y == y' && y != 0 { DoubleNonZero(p, y); }
  }

  /// `Point::add` follows the rules of SEC 1 on every pair of curve points except when it
  /// doubles a point with y = 0; there the rules say infinity and the code does not.
  lemma AddFollowsRules(c: Curve, s: Point, o: Point)
    requires c.Valid() && OnCurve(c, s) && OnCurve(c, o)
    ensures IsSum(c, s, o, Add(c, s, o)) <==> !(Vertical(s) && s == o)
  {
    if !s.infinity && !o.infinity {
      if s.x == o.x { SameX(c, s, o); }
      if s == o && s.y == 0 {
        assert Cong(s.y + o.y, 0, c.p);
      } else if s.x == o.x && s.y != o.y {
      } else {
        SlopeIsSlope(c, s, o);
        FromSlopeSums(c, Slope(c, s, o), s, o);
        if s.x == o.x && Cong(s.y + o.y, 0, c.p) { assert false; }
      }
    }
  }

  /// The rules determine the sum, and the sum is a reduced point of the curve.
  lemma SumIsUnique(c: Curve, s: Point, o: Point, r: Point, r': Point)
    requires c.Valid() && OnCurve(c, s) && OnCurve(c, o)
    requires IsSum(c, s, o, r) && IsSum(c, s, o, r')
    ensures r == r'
  {
    if !s.infinity && !o.infinity && !(s.x == o.x && Cong(s.y + o.y, 0, c.p)) {
      var lam :| IsSlope(c, lam, s, o) && SumBySlope(c, lam, s, o, r);
      var lam' :| IsSlope(c, lam', s, o) && SumBySlope(c, lam', s, o, r');
      SlopeIsUnique(c, s, o, lam, lam');
      BySlopeUnique(c, s, o, lam, lam', r, r');
    }
  }

  lemma SlopeIsUnique(c: Curve, s: Point, o: Point, lam: int, lam': int)
    requires c.Valid() && OnCurve(c, s) && OnCurve(c, o) && !s.infinity && !o.infinity
    requires !(s.x == o.x && Cong(s.y + o.y, 0, c.p))
    requires IsSlope(c, lam, s, o) && IsSlope(c, lam', s, o)
    ensures Cong(lam, lam', c.p)
  {
    if s.x == o.x {
      SameX(c, s, o);
      assert s.y != 0;
      DoubleNonZero(c.p, s.y);
      CancelRight(c.p, 2 * s.y, lam, lam');
    } else {
      DifferenceNonZero(c.p, s.x, o.x);
      CancelRight(c.p, o.x - s.x, lam, lam');
    }
  }

  lemma BySlopeUnique(c: Curve, s: Point, o: Point, lam: int, lam': int, r: Point, r': Point)
    requires c.p > 0 && Cong(lam, lam', c.p)
    requires SumBySlope(c, lam, s, o, r) && SumBySlope(c, lam', s, o, r')
    ensures r == r'
  {
    CongMul(lam, lam', lam, lam', c.p);
    CongAdd(lam * lam, lam' * lam', s.x, s.x, c.p);
    CongAdd(lam * lam - s.x, lam' * lam' - s.x, o.x, o.x, c.p);
    CongSmall(r.x, r'.x, c.p);
    CongMul(lam, lam', s.x - r.x, s.x - r.x, c.p);
    CongAdd(lam * (s.x - r.x), lam' * (s.x - r.x), s.y, s.y, c.p);
    CongSmall(r.y, r'.y, c.p);
  }

  lemma SumOnCurve(c: Curve, s: Point, o: Point, r: Point)
    requires c.Valid() && OnCurve(c, s) && OnCurve(c, o) && IsSum(c, s, o, r)
    ensures OnCurve(c, r)
  {
    if !s.infinity && !o.infinity && !(s.x == o.x && Cong(s.y + o.y, 0, c.p)) {
      var lam :| IsSlope(c, lam, s, o) && SumBySlope(c, lam, s, o, r);
      if s.x == o.x {
        SameX(c, s, o);
        RemainderZeroTangent(c, lam, s);
      } else {
        RemainderZeroChord(c, lam, s, o);
      }
      ThirdPointOnCurve(c, lam, s, o, r);
    }
  }

  // ---- The group operation ----

  /// The sum according to the rules; `Add` except for the doubling it gets wrong.
  function GroupAdd(c: Curve, s: Point, o: Point): Point
    requires c.p > 2
  {
    if Vertical(s) && s == o then INFINITY else Add(c, s, o)
  }

  function Negate(c: Curve, s: Point): Point
    requires c.p > 0
  {
    if s.infinity then s else Point(s.x, (c.p - s.y % c.p) % c.p, false)
  }

  /// Closure, and agreement with the rules, in every case.
  lemma GroupAddIsSum(c: Curve, s: Point, o: Point)
    requires c.Valid() && OnCurve(c, s) && OnCurve(c, o)
    ensures IsSum(c, s, o, GroupAdd(c, s, o)) && OnCurve(c, GroupAdd(c, s, o))
    ensures forall r :: IsSum(c, s, o, r) ==> r == GroupAdd(c, s, o)
  {
    AddFollowsRules(c, s, o);
    var g := GroupAdd(c, s, o);
    SumOnCurve(c, s, o, g);
    forall r | IsSum(c, s, o, r) ensures r == g { SumIsUnique(c, s, o, r, g); }
  }

  /// `Add` stays on the curve when it is not doubling a point with y = 0. When it is,
  /// it returns (-2x, 0), which lies on the curve exactly when 3x(3x^2 + a) = 0.
  lemma AddClosure(c: Curve, s: Point, o: Point)
    requires c.Valid() && OnCurve(c, s) && OnCurve(c, o)
    ensures !(Vertical(s) && s == o) ==> OnCurve(c, Add(c, s, o))
    ensures Vertical(s) && s == o ==>
              var r := Add(c, s, o);
              && !r.infinity && r.y == 0 && Cong(r.x, -2 * s.x, c.p)
              && (OnCurve(c, r) <==> Cong(3 * s.x * (3 * s.x * s.x + c.a), 0, c.p))
  {
    GroupAddIsSum(c, s, o);
    if Vertical(s) && s == o { VerticalDoubling(c, s); }
  }

  lemma VerticalDoubling(c: Curve, s: Point)
    requires c.Valid() && OnCurve(c, s) && Vertical(s)
    ensures var r := Add(c, s, s);
            && r.x < c.p && !r.infinity && r.y == 0 && Cong(r.x, -2 * s.x, c.p)
            && (OnCurve(c, r) <==> Cong(3 * s.x * (3 * s.x * s.x + c.a), 0, c.p))
  {
    var p, r := c.p, Add(c, s, s);
    DivModUnique(0, p, 0, 0);
    ModInvCorrect(0, p);
    assert Slope(c, s, s) == 0;
    FromSlopeSums(c, 0, s, s);
    assert Cong(r.x, -2 * s.x, p);
    assert r.y == 0 by { CongSmall(r.y, 0, p); }
    RhsCong(c, r.x, -2 * s.x);
    MinusTwoX(c.a, c.b, s.x);
    var u := 3 * s.x * (3 * s.x * s.x + c.a);
    assert Rhs(c, -2 * s.x) == Rhs(c, s.x) - u;
    CongAdd(Rhs(c, s.x), 0, u, u, p);
    if Cong(u, 0, p) { CongAdd(0, 0, u, 0, p); }
    if Cong(-u, 0, p) { CongAdd(0, 0, -u, 0, p); }
  }

  lemma MinusTwoX(a: int, b: int, x: int)
    ensures var z := -2 * x;
            z * z * z + a * z + b == x * x * x + a * x + b - 3 * x * (3 * x * x + a)
  {
  }

  lemma SumSymmetric(c: Curve, s: Point, o: Point, r: Point)
    requires c.Valid() && OnCurve(c, s) && OnCurve(c, o) && IsSum(c, s, o, r)
    ensures IsSum(c, o, s, r)
  {
    if s != o && !s.infinity && !o.infinity && !(s.x == o.x && Cong(s.y + o.y, 0, c.p)) {
      var lam :| IsSlope(c, lam, s, o) && SumBySlope(c, lam, s, o, r);
      CongMul(lam * (o.x - s.x), o.y - s.y, -1, -1, c.p);
      assert IsSlope(c, lam, o, s);
      // lam (o.x - r.x) - o.y = lam (s.x - r.x) - s.y because lam (o.x - s.x) = o.y - s.y
      CongAdd(lam * (s.x - r.x) - s.y, lam * (s.x - r.x) - s.y, lam * (o.x - s.x), o.y - s.y, c.p);
      var up := lam * (s.x - r.x) - s.y;
      CongAdd(up + lam * (o.x - s.x), up + (o.y - s.y), o.y - s.y, o.y - s.y, c.p);
      assert lam * (o.x - r.x) - o.y == lam * (s.x - r.x) - s.y + lam * (o.x - s.x) - (o.y - s.y);
      assert SumBySlope(c, lam, o, s, r);
    }
  }

  lemma AddCommutes(c: Curve, s: Point, o: Point)
    requires c.Valid() && OnCurve(c, s) && OnCurve(c, o)
    ensures Add(c, s, o) == Add(c, o, s)
    ensures GroupAdd(c, s, o) == GroupAdd(c, o, s)
  {
    GroupAddIsSum(c, s, o);
    SumSymmetric(c, s, o, GroupAdd(c, s, o));
    GroupAddIsSum(c, o, s);
  }

  /// (x, p - y) is the inverse, also for `Add` unless y = 0.
  lemma NegateInverts(c: Curve, s: Point)
    requires c.Valid() && OnCurve(c, s)
    ensures OnCurve(c, Negate(c, s)) && Negate(c, Negate(c, s)) == s
    ensures GroupAdd(c, s, Negate(c, s)) == INFINITY
    ensures Add(c, s, Negate(c, s)) == INFINITY <==> !Vertical(s)
  {
    if !s.infinity {
      OddPrimeIsOdd(c.p);
      NegateOrdinate(c.p, s.y);
      if s.y == 0 { VerticalDoubling(c, s); }
    }
  }

  lemma NegateOrdinate(p: nat, y: nat)
    requires p > 0 && y < p
    ensures var n := (p - y % p) % p;
            && n == (if y == 0 then 0 else p - y)
            && Cong(n * n, y * y, p)
            && (p - n % p) % p == y
  {
    DivModUnique(y, p, 0, y);
    if y == 0 {
      DivModUnique(p, p, 1, 0);
    } else {
      DivModUnique(p - y, p, 0, p - y);
      SquareOfNegation(p, y);
    }
  }

  lemma SquareOfNegation(p: int, y: int)
    requires p > 0
    ensures Cong((p - y) * (p - y), y * y, p)
  {
    assert (p - y) * (p - y) == y * y + (p - 2 * y) * p;
    FromWitness((p - y) * (p - y), y * y, p - 2 * y, p);
  }
}

/// `WCurve` of `src/ecsrp5.rs`: conversion between the Montgomery x coordinate on the
/// wire and points of the Weierstrass curve, decompression (`lift_x`), key generation
/// and the hash-to-curve loop `redp1`.
module WeierstrassCurve {
  import opened Basics
  import opened ModArith
  import opened NumberTheory
  import opened FieldSqrt
  import opened CurvePoints
  import opened ScalarMul
  import opened ByteStrings

  /// The constants P, WEIERSTRASS_A, MONT_A and CURVE_ORDER.
  datatype Params = Params(p: nat, a: nat, montA: nat, r: nat) {
    function FromM(): (c: nat)
      requires p > 2
      ensures c < p
    {
      (montA * ModInv(3, p)) % p
    }

    function ToM(): (d: nat)
      requires p > 2
      ensures d < p
    {
      (p - FromM()) % p
    }

    /// The constant term; the code never needs it.
    function B(): nat
      requires p > 2
    {
      (2 * (FromM() * FromM() * FromM()) - FromM()) % p
    }

    function C(): Curve
      requires p > 2
    {
      Curve(p, a, B())
    }

    /// What the constants are chosen to satisfy.
    ghost predicate Valid() {
      OddPrime(p) && p > 3 && a < p && Cong(3 * a, 3 - montA * montA, p)
    }

    /// Coordinates fit in 32 bytes.
    predicate Fits() {
      p <= TWO_TO_256
    }
  }

  function MontgomeryRhs(montA: int, u: int): int {
    u * u * u + montA * u * u + u
  }

  lemma ParamsCurveValid(w: Params)
    requires w.Valid()
    ensures w.C().Valid()
  {
  }

  // ---- The change of variable ----

  /// A/3 and its negation.
  lemma FromMIsThird(w: Params)
    requires w.Valid()
    ensures Cong(3 * w.FromM(), w.montA, w.p) && Cong(w.FromM() + w.ToM(), 0, w.p)
  {
    hide ModInv;
    ThreeNonZero(w.p);
    QuotientTimesDivisor(w.p, w.montA, 3, w.FromM());
    assert 3 * w.FromM() == w.FromM() * 3;
    Negation(w.p, w.FromM());
  }

  lemma Negation(p: nat, c: nat)
    requires p > 0 && c < p
    ensures Cong(c + (p - c) % p, 0, p)
  {
    CongMod(p - c, p);
    CongAdd(c, c, (p - c) % p, p - c, p);
    FromWitness(p, 0, 1, p);
  }

  lemma ThreeNonZero(p: nat)
    requires p > 3
    ensures !Cong(3, 0, p)
  {
    DivModUnique(3, p, 0, 3);
    DivModUnique(0, p, 0, 0);
  }

  /// a = 1 - 3 c^2 with c = A / 3.
  lemma LinearCoefficient(p: nat, a: int, montA: int, c: int)
    requires OddPrime(p) && p > 3 && Cong(3 * c, montA, p) && Cong(3 * a, 3 - montA * montA, p)
    ensures Cong(a, 1 - 3 * (c * c), p)
  {
    CongMul(3 * c, montA, 3 * c, montA, p);
    CongAdd(3, 3, 3 * c * (3 * c), montA * montA, p);
    NineSquares(c);
    ThreeNonZero(p);
    Cancel(p, 3, a, 1 - 3 * (c * c));
  }

  lemma NineSquares(c: int)
    ensures 3 - 3 * c * (3 * c) == 3 * (1 - 3 * (c * c))
  {
  }

  /// The Weierstrass right-hand side at x is the Montgomery one at u = x - A/3.
  lemma VariableChange(p: nat, a: int, b: int, montA: int, c: int, x: int, u: int)
    requires p > 0 && Cong(3 * c, montA, p) && Cong(a, 1 - 3 * (c * c), p)
    requires Cong(b, 2 * (c * c * c) - c, p) && Cong(u, x - c, p)
    ensures Cong(x * x * x + a * x + b, MontgomeryRhs(montA, u), p)
  {
    hide MontgomeryRhs;
    var a', b' := 1 - 3 * (c * c), 2 * (c * c * c) - c;
    CongMul(a, a', x, x, p);
    CongAdd(a * x, a' * x, b, b', p);
    CongAdd(x * x * x, x * x * x, a * x + b, a' * x + b', p);
    ShiftIdentity(x, c);
    MontgomeryCong(p, 3 * c, montA, x - c, u);
  }

  lemma ShiftIdentity(x: int, c: int)
    ensures MontgomeryRhs(3 * c, x - c) == x * x * x + ((1 - 3 * (c * c)) * x + (2 * (c * c * c) - c))
  {
    var u := x - c;
    assert u * u == x * x - 2 * c * x + c * c;
    assert u * u * u == x * (x * x) - 3 * c * (x * x) + 3 * (c * c) * x - c * (c * c);
    assert 3 * c * u * u == 3 * c * (u * u) == 3 * c * (x * x) - 6 * (c * c) * x + 3 * (c * (c * c));
  }

  lemma ConstantCoefficient(w: Params)
    requires w.Valid()
    ensures var c := w.FromM(); Cong(w.B(), 2 * (c * c * c) - c, w.p)
  {
    hide w.FromM, Cong;
    var c := w.FromM();
    Reduced(2 * (c * c * c) - c, w.B(), w.p);
  }

  lemma Reduced(v: int, b: int, p: int)
    requires p > 0 && b == v % p
    ensures Cong(b, v, p)
  {
    CongMod(v, p);
  }

  lemma ChangeOfVariable(w: Params, x: int, u: int)
    requires w.Valid() && Cong(u, x - w.FromM(), w.p)
    ensures Cong(Rhs(w.C(), x), MontgomeryRhs(w.montA, u), w.p)
  {
    hide w.FromM, w.B, MontgomeryRhs;
    var c := w.FromM();
    FromMIsThird(w);
    LinearCoefficient(w.p, w.a, w.montA, c);
    ConstantCoefficient(w);
    VariableChange(w.p, w.a, w.B(), w.montA, c, x, u);
  }

  lemma MontgomeryCong(p: nat, m: int, m': int, u: int, u': int)
    requires p > 0 && Cong(m, m', p) && Cong(u, u', p)
    ensures Cong(MontgomeryRhs(m, u), MontgomeryRhs(m', u'), p)
  {
    CongMul(u, u', u, u', p);
    CongMul(u * u, u' * u', u, u', p);
    CongMul(m, m', u, u', p);
    CongMul(m * u, m' * u', u, u', p);
    CongAdd(u * u * u, u' * u' * u', m * u * u, m' * u' * u', p);
    CongAdd(u * u * u + m * u * u, u' * u' * u' + m' * u' * u', u, u', p);
  }

  // ---- Decompression ----

  /// Right-hand side at a Montgomery x coordinate, as `lift_x` computes it.
  function LiftValue(w: Params, xMont: nat): nat
    requires w.p > 2
  {
    var x := xMont % w.p;
    (x * x * x + w.montA * x * x + x) % w.p
  }

  function LiftX(w: Params, xMont: nat): nat
    requires w.p > 2
  {
    (xMont % w.p + w.FromM()) % w.p
  }

  /// What `lift_x` promises: the point above x with the wanted parity of y, or infinity
  /// when there is none. A root 0 has no odd partner and is returned for both parities.
  ghost predicate IsLift(w: Params, xMont: nat, parity: bool, pt: Point)
    requires w.p > 2
  {
    var v := LiftValue(w, xMont);
    if !IsSquare(v, w.p) then pt == INFINITY
    else
      && !pt.infinity && pt.x == LiftX(w, xMont) && pt.y < w.p
      && Cong(pt.y * pt.y, v, w.p)
      && (pt.y == 0 || (pt.y % 2 == 1 <==> parity))
  }

  /// `lift_x`.
  method ComputeLift(w: Params, xMont: nat, parity: bool) returns (pt: Point)
    requires w.Valid() && SmallShift(w.p)
    ensures IsLift(w, xMont, parity, pt)
  {
    OddPrimeIsOdd(w.p);
    var ySquared := LiftValue(w, xMont);
    var xW := LiftX(w, xMont);
    var roots, overflow := PrimeModSqrt(ySquared, w.p);
    assert !overflow;
    match roots
    case None => pt := INFINITY;
    case Some((y1, y2)) =>
      var pt1, pt2 := Point(xW, y1, false), Point(xW, y2, false);
      if parity {
        pt := if pt1.y % 2 == 1 then pt1 else pt2;
      } else {
        pt := if pt1.y % 2 != 1 then pt1 else pt2;
      }
      LiftChoice(w.p, ySquared, (y1, y2), parity);
  }

  lemma LiftChoice(p: nat, v: nat, roots: (nat, nat), parity: bool)
    requires p > 2 && p % 2 == 1 && v < p && SqrtResult(v, p, Some(roots))
    ensures var y := if roots.0 % 2 == 1 <==> parity then roots.0 else roots.1;
            && y < p && Cong(y * y, v, p)
            && (y == 0 || (y % 2 == 1 <==> parity))
  {
    hide Cong;
    DivModUnique(v, p, 0, v);
    if v % p == 0 {
      CongMod(v, p);
      assert roots == (0, 0);
    } else {
      OtherParity(p, roots.0);
    }
  }

  lemma LiftUnique(w: Params, xMont: nat, parity: bool, pt: Point, pt': Point)
    requires w.Valid() && IsLift(w, xMont, parity, pt) && IsLift(w, xMont, parity, pt')
    ensures pt == pt'
  {
    if !pt.infinity { OddPrimeIsOdd(w.p); RootWithParity(w.p, pt.y, pt'.y); }
  }

  /// Roots of one value that agree in parity (or are 0) are equal, as p is odd.
  lemma RootWithParity(p: nat, y: nat, y': nat)
    requires OddPrime(p) && p % 2 == 1 && y < p && y' < p && Cong(y * y, y' * y', p)
    requires y == 0 || y' == 0 || y % 2 == y' % 2
    ensures y == y'
  {
    hide Cong;
    SameSquare(p, y, y');
    if y != y' { NotOpposite(p, y, y'); }
  }

  lemma NotOpposite(p: nat, y: nat, y': nat)
    requires p % 2 == 1 && y < p && y' < p && y != y'
    requires y == 0 || y' == 0 || y % 2 == y' % 2
    ensures !Cong(y + y', 0, p)
  {
    DivModUnique(0, p, 0, 0);
    if y + y' < p { DivModUnique(y + y', p, 0, y + y'); } else { DivModUnique(y + y', p, 1, y + y' - p); }
  }

  lemma LiftExists(w: Params, xMont: nat, parity: bool)
    requires w.Valid()
    ensures exists pt :: IsLift(w, xMont, parity, pt)
  {
    hide LiftValue, LiftX;
    var v := LiftValue(w, xMont);
    if IsSquare(v, w.p) {
      var y := ParityRoot(w.p, v, parity);
      assert IsLift(w, xMont, parity, Point(LiftX(w, xMont), y, false));
    } else {
      assert IsLift(w, xMont, parity, INFINITY);
    }
  }

  lemma ParityRoot(p: nat, v: nat, parity: bool) returns (y: nat)
    requires OddPrime(p) && IsSquare(v, p)
    ensures y < p && Cong(y * y, v, p) && (y == 0 || (y % 2 == 1 <==> parity))
  {
    var x :| 0 <= x < p && Cong(x * x, v, p);
    SquareOfNegation(p, x);
    OddPrimeIsOdd(p);
    OtherParity(p, x);
    y := if x == 0 || (x % 2 == 1 <==> parity) then x else p - x;
  }

  lemma OtherParity(p: int, x: int)
    requires p % 2 == 1
    ensures (p - x) % 2 == 1 <==> x % 2 == 0
  {
  }

  ghost function Lift(w: Params, xMont: nat, parity: bool): Point
    requires w.Valid()
  {
    LiftExists(w, xMont, parity);
    var pt :| IsLift(w, xMont, parity, pt);
    pt
  }

  /// `ComputeLift` computes `Lift`, the only point that `IsLift` admits.
  lemma LiftIs(w: Params, xMont: nat, parity: bool, pt: Point)
    requires w.Valid()
    ensures IsLift(w, xMont, parity, pt) <==> pt == Lift(w, xMont, parity)
  {
    hide LiftValue, LiftX;
    LiftExists(w, xMont, parity);
    if IsLift(w, xMont, parity, pt) { LiftUnique(w, xMont, parity, pt, Lift(w, xMont, parity)); }
  }

  lemma LiftXShift(w: Params, xMont: nat)
    requires w.Valid()
    ensures LiftX(w, xMont) < w.p
    ensures Cong(LiftX(w, xMont), xMont % w.p + w.FromM(), w.p)
    ensures Cong(LiftValue(w, xMont), MontgomeryRhs(w.montA, xMont % w.p), w.p)
  {
    hide ModInv;
    var x := xMont % w.p;
    CongMod(x + w.FromM(), w.p);
    CongMod(x * x * x + w.montA * x * x + x, w.p);
  }

  /// `lift_x` undoes the shift of `to_montgomery` and the other way round.
  lemma ShiftsCancel(w: Params, x: nat, u: nat)
    requires w.Valid() && x < w.p && u < w.p
    ensures x == LiftX(w, u) <==> u == (x + w.ToM()) % w.p
  {
    hide ModInv;
    FromMIsThird(w);
    DivModUnique(u, w.p, 0, u);
    OppositeShifts(w.p, w.FromM(), w.ToM(), x, u);
  }

  lemma OppositeShifts(p: nat, c: nat, d: nat, x: nat, u: nat)
    requires p > 0 && Cong(c + d, 0, p) && x < p && u < p
    ensures x == (u + c) % p <==> u == (x + d) % p
  {
    CongMod(u + c, p);
    CongMod(x + d, p);
    if x == (u + c) % p { OneShift(p, c, d, u, x); }
    if u == (x + d) % p { OneShift(p, d, c, x, u); }
  }

  lemma OneShift(p: nat, c: nat, d: nat, u: nat, x: nat)
    requires p > 0 && Cong(c + d, 0, p) && u < p && Cong(x, u + c, p)
    ensures u == (x + d) % p
  {
    CongAdd(x, u + c, d, d, p);
    CongAdd(u, u, c + d, 0, p);
    CongMod(x + d, p);
    CongSmall(u, (x + d) % p, p);
  }

  /// The lifted value is the right-hand side of the curve at the lifted coordinate.
  lemma LiftValueIsRhs(w: Params, u: nat)
    requires w.Valid()
    ensures Cong(LiftValue(w, u), Rhs(w.C(), LiftX(w, u)), w.p)
  {
    hide ModInv, MontgomeryRhs, LiftX, LiftValue, Rhs;
    LiftXShift(w, u);
    CongAdd(LiftX(w, u), u % w.p + w.FromM(), w.FromM(), w.FromM(), w.p);
    ChangeOfVariable(w, LiftX(w, u), u % w.p);
  }

  /// Every lift is a reduced point of the curve.
  lemma LiftOnCurve(w: Params, xMont: nat, parity: bool)
    requires w.Valid()
    ensures OnCurve(w.C(), Lift(w, xMont, parity))
  {
    hide ModInv, LiftX, LiftValue, Rhs;
    LiftIs(w, xMont, parity, Lift(w, xMont, parity));
    LiftValueIsRhs(w, xMont);
    LiftXShift(w, xMont);
  }

  /// The two lifts of one coordinate are inverse to each other.
  lemma LiftNegates(w: Params, xMont: nat)
    requires w.Valid()
    ensures Lift(w, xMont, false) == Negate(w.C(), Lift(w, xMont, true))
    ensures Lift(w, xMont, false).infinity <==> Lift(w, xMont, true).infinity
  {
    hide ModInv, LiftX, LiftValue, Rhs;
    var t := Lift(w, xMont, true);
    LiftIs(w, xMont, true, t);
    NegatedLift(w, xMont, t);
    LiftIs(w, xMont, false, Negate(w.C(), t));
  }

  lemma NegatedLift(w: Params, xMont: nat, t: Point)
    requires w.Valid() && IsLift(w, xMont, true, t)
    ensures IsLift(w, xMont, false, Negate(w.C(), t))
  {
    hide ModInv, LiftX, LiftValue, Rhs;
    if !t.infinity {
      OddPrimeIsOdd(w.p);
      NegateOrdinate(w.p, t.y);
      OtherParity(w.p, t.y);
    }
  }

  // ---- Compression ----

  /// `to_montgomery`; the point at infinity is sent through its zero coordinates.
  function ToMontgomery(w: Params, pt: Point): (Bytes32, nat)
    requires w.p > 2
  {
    var x := (pt.x + w.ToM()) % w.p;
    (Pad32(ToBytesBE(x)), if pt.y % 2 == 1 then 1 else 0)
  }

  lemma ToMontgomeryValue(w: Params, pt: Point)
    requires w.Valid() && w.Fits()
    ensures FromBytesBE(ToMontgomery(w, pt).0) == (pt.x + w.ToM()) % w.p
  {
    hide ModInv, FromBytesBE, ToBytesBE, Pad32;
    Pad32RoundTrip((pt.x + w.ToM()) % w.p);
  }

  /// Decompressing what was compressed gives the point back, for every finite point.
  lemma LiftOfCompressed(w: Params, pt: Point)
    requires w.Valid() && w.Fits() && OnCurve(w.C(), pt) && !pt.infinity
    ensures var (bytes, parity) := ToMontgomery(w, pt);
            Lift(w, FromBytesBE(bytes), parity != 0) == pt
  {
    hide ModInv, FromBytesBE, ToBytesBE, Pad32, LiftX, LiftValue, Rhs;
    var u := (pt.x + w.ToM()) % w.p;
    var parity := pt.y % 2 == 1;
    ToMontgomeryValue(w, pt);
    ShiftsCancel(w, pt.x, u);
    LiftValueIsRhs(w, u);
    RootMakesSquare(LiftValue(w, u), pt.y, w.p);
    assert IsLift(w, u, parity, pt);
    LiftIs(w, u, parity, pt);
  }

  /// Compressing what was decompressed gives the coordinate back, reduced.
  lemma CompressedLift(w: Params, xMont: nat, parity: bool)
    requires w.Valid() && w.Fits() && !Lift(w, xMont, parity).infinity
    ensures FromBytesBE(ToMontgomery(w, Lift(w, xMont, parity)).0) == xMont % w.p
  {
    hide ModInv, FromBytesBE, ToBytesBE, Pad32, LiftValue;
    var pt, u := Lift(w, xMont, parity), xMont % w.p;
    LiftIs(w, xMont, parity, pt);
    ToMontgomeryValue(w, pt);
    LiftXShift(w, xMont);
    DivModUnique(u, w.p, 0, u);
    assert LiftX(w, u) == LiftX(w, xMont);
    ShiftsCancel(w, pt.x, u);
  }

  /// Infinity is sent through the zero coordinates of its record, and comes back exactly
  /// when x = 0 is not the coordinate of a point.
  lemma InfinityCompressed(w: Params)
    requires w.Valid() && w.Fits()
    ensures var (bytes, parity) := ToMontgomery(w, INFINITY);
            Lift(w, FromBytesBE(bytes), parity != 0) == INFINITY <==> !IsSquare(w.B(), w.p)
  {
    hide ModInv, FromBytesBE, ToBytesBE, Pad32, LiftX, LiftValue, Params.B;
    var u := w.ToM() % w.p;
    ToMontgomeryValue(w, INFINITY);
    ShiftsCancel(w, 0, u);
    LiftValueIsRhs(w, u);
    assert Rhs(w.C(), 0) == w.B();
    LiftIs(w, u, false, INFINITY);
    SameSquareness(LiftValue(w, u), w.B(), w.p);
  }

  lemma SameSquareness(v: int, v': int, p: nat)
    requires p > 0 && Cong(v, v', p)
    ensures IsSquare(v, p) <==> IsSquare(v', p)
  {
    if IsSquare(v, p) { SquareMoves(v, v', p); }
    if IsSquare(v', p) { SquareMoves(v', v, p); }
  }

  lemma SquareMoves(v: int, v': int, p: nat)
    requires p > 0 && Cong(v, v', p) && IsSquare(v, p)
    ensures IsSquare(v', p)
  {
    var x :| 0 <= x < p && Cong(x * x, v, p);
    RootMakesSquare(v', x, p);
  }

  // ---- Keys ----

  /// The generator `WCurve::new` computes.
  ghost function G(w: Params): Point
    requires w.Valid()
  {
    Lift(w, 9, false)
  }

  lemma GeneratorOnCurve(w: Params)
    requires w.Valid()
    ensures OnCurve(w.C(), G(w))
  {
    LiftOnCurve(w, 9, false);
  }

  /// It has even y.
  lemma GeneratorEven(w: Params)
    requires w.Valid()
    ensures !G(w).infinity ==> G(w).y % 2 == 0
  {
    hide LiftX, LiftValue;
    LiftIs(w, 9, false, G(w));
  }

  method NewGenerator(w: Params) returns (g: Point)
    requires w.Valid() && SmallShift(w.p)
    ensures g == G(w)
  {
    g := ComputeLift(w, 9, false);
    LiftIs(w, 9, false, g);
  }

  ghost function PublicKey(w: Params, priv: Bytes32): (Bytes32, nat)
    requires w.Valid()
  {
    ToMontgomery(w, ScalarMulSpec(w.C(), FromBytesBE(priv), G(w)))
  }

  /// `gen_public_key`.
  method GenPublicKey(w: Params, g: Point, priv: Bytes32) returns (key: (Bytes32, nat))
    requires w.Valid() && g == G(w)
    ensures key == PublicKey(w, priv)
  {
    var pt := ScalarMul.ScalarMul(w.C(), g, FromBytesBE(priv));
    key := ToMontgomery(w, pt);
  }

  // ---- Hash to curve ----

  type Sha256 = seq<byte> -> Bytes32

  /// The counter of `redp1` after `k` rounds.
  function Counter(h: Sha256, x: seq<byte>, k: nat): Bytes32 {
    if k == 0 then h(x) else BigintTo32Bytes(FromBytesBE(Counter(h, x, k - 1)) + 1)
  }

  lemma {:induction false} CounterWraps(h: Sha256, x: seq<byte>, k: nat)
    ensures FromBytesBE(Counter(h, x, k)) == (FromBytesBE(h(x)) + k) % TWO_TO_256
  {
    hide BigintTo32Bytes;
    if k == 0 {
      Range(h(x));
      Base32();
      DivModUnique(FromBytesBE(h(x)), TWO_TO_256, 0, FromBytesBE(h(x)));
    } else {
      CounterWraps(h, x, k - 1);
      var n := FromBytesBE(h(x)) + k - 1;
      BigintTo32BytesWraps(n % TWO_TO_256 + 1);
      CongMod(n, TWO_TO_256);
      CongAdd(n % TWO_TO_256, n, 1, 1, TWO_TO_256);
    }
  }

  function Candidate(h: Sha256, x: seq<byte>, k: nat): nat {
    FromBytesBE(h(Counter(h, x, k)))
  }

  ghost predicate LandsAt(w: Params, h: Sha256, x: seq<byte>, k: nat)
    requires w.Valid()
  {
    IsSquare(LiftValue(w, Candidate(h, x, k)), w.p)
  }

  /// Some candidate is the x coordinate of a point; otherwise `redp1` never returns.
  ghost predicate Lands(w: Params, h: Sha256, x: seq<byte>)
    requires w.Valid()
  {
    exists k: nat :: LandsAt(w, h, x, k)
  }

  lemma FirstLandingExists(w: Params, h: Sha256, x: seq<byte>)
    requires w.Valid() && Lands(w, h, x)
    ensures exists k: nat :: LandsAt(w, h, x, k) && forall j: nat :: j < k ==> !LandsAt(w, h, x, j)
  {
    var k: nat :| LandsAt(w, h, x, k);
    var i: nat := 0;
    while !LandsAt(w, h, x, i)
      invariant i <= k && forall j: nat :: j < i ==> !LandsAt(w, h, x, j)
      decreases k - i
    {
      i := i + 1;
    }
  }

  ghost function FirstLanding(w: Params, h: Sha256, x: seq<byte>): (k: nat)
    requires w.Valid() && Lands(w, h, x)
    ensures LandsAt(w, h, x, k) && forall j: nat :: j < k ==> !LandsAt(w, h, x, j)
  {
    FirstLandingExists(w, h, x);
    var k: nat :| LandsAt(w, h, x, k) && forall j: nat :: j < k ==> !LandsAt(w, h, x, j);
    k
  }

  ghost function HashToCurve(w: Params, h: Sha256, x: seq<byte>, parity: bool): Point
    requires w.Valid() && Lands(w, h, x)
  {
    Lift(w, Candidate(h, x, FirstLanding(w, h, x)), parity)
  }

  /// `redp1`.
  method Redp1(w: Params, h: Sha256, xBytes: seq<byte>, parity: bool) returns (pt: Point)
    requires w.Valid() && SmallShift(w.p) && Lands(w, h, xBytes)
    ensures pt == HashToCurve(w, h, xBytes, parity) && !pt.infinity
  {
    hide BigintTo32Bytes;
    var x := h(xBytes);
    ghost var k: nat := 0;
    ghost var last := FirstLanding(w, h, xBytes);
    while true
      invariant k <= last && x == Counter(h, xBytes, k)
      decreases last - k
    {
      var x2 := h(x);
      var xInt := FromBytesBE(x2);
      pt := ComputeLift(w, xInt, parity);
      if !pt.infinity {
        LiftIs(w, xInt, parity, pt);
        assert LandsAt(w, h, xBytes, k);
        return;
      }
      assert !LandsAt(w, h, xBytes, k);
      var val := FromBytesBE(x);
      val := val + 1;
      x := BigintTo32Bytes(val);
      k := k + 1;
    }
  }

  /// These 32 bytes are the hash of x plus j, mod 2^256.
  predicate RaisedBy(h: Sha256, x: seq<byte>, j: nat, d: Bytes32) {
    FromBytesBE(d) == (FromBytesBE(h(x)) + j) % TWO_TO_256
  }

  /// The hash of these 32 bytes is the coordinate of a point.
  ghost predicate HashLifts(w: Params, h: Sha256, d: Bytes32)
    requires w.Valid()
  {
    !Lift(w, FromBytesBE(h(d)), false).infinity
  }

  lemma RaisedIsCounter(w: Params, h: Sha256, x: seq<byte>, j: nat, d: Bytes32)
    requires w.Valid()
    ensures RaisedBy(h, x, j, d) <==> d == Counter(h, x, j)
    ensures RaisedBy(h, x, j, d) ==> (HashLifts(w, h, d) <==> LandsAt(w, h, x, j))
  {
    hide LiftValue, LiftX, FromBytesBE, Counter;
    CounterWraps(h, x, j);
    if RaisedBy(h, x, j, d) {
      Injective(d, Counter(h, x, j));
      LiftIs(w, Candidate(h, x, j), false, Lift(w, Candidate(h, x, j), false));
    }
  }

  /// The result in terms of the hash alone: the counter starts at the hash of the input and
  /// is raised by 1, mod 2^256, until the hash of the counter lifts.
  lemma HashToCurveByCounter(w: Params, h: Sha256, x: seq<byte>, parity: bool) returns (k: nat, c: Bytes32)
    requires w.Valid() && Lands(w, h, x)
    ensures RaisedBy(h, x, k, c) && HashLifts(w, h, c)
    ensures HashToCurve(w, h, x, parity) == Lift(w, FromBytesBE(h(c)), parity)
    ensures forall j: nat, d: Bytes32 :: j < k && RaisedBy(h, x, j, d) ==> !HashLifts(w, h, d)
  {
    hide FromBytesBE, Counter, RaisedBy, HashLifts, LandsAt;
    k := FirstLanding(w, h, x);
    c := Counter(h, x, k);
    RaisedIsCounter(w, h, x, k, c);
    forall j: nat, d: Bytes32 | j < k && RaisedBy(h, x, j, d) ensures !HashLifts(w, h, d) {
      RaisedIsCounter(w, h, x, j, d);
    }
  }

  /// Both parities stop at one candidate, with mutually inverse points of the curve.
  lemma Redp1Opposite(w: Params, h: Sha256, x: seq<byte>)
    requires w.Valid() && Lands(w, h, x)
    ensures var (t, f) := (HashToCurve(w, h, x, true), HashToCurve(w, h, x, false));
            && OnCurve(w.C(), t) && OnCurve(w.C(), f) && !t.infinity && !f.infinity
            && f == Negate(w.C(), t) && t == Negate(w.C(), f)
  {
    var xInt := Candidate(h, x, FirstLanding(w, h, x));
    LiftIs(w, xInt, true, Lift(w, xInt, true));
    LiftNegates(w, xInt);
    LiftOnCurve(w, xInt, true);
    LiftOnCurve(w, xInt, false);
    NegateInverts(w.C(), Lift(w, xInt, true));
  }
}

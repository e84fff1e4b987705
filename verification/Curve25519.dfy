/// The constants of `src/ecsrp5.rs`: Curve25519 (section 4.1 of RFC 7748) in
/// Weierstrass form.
module Curve25519 {
  import opened ModArith
  import opened NumberTheory
  import opened FieldSqrt
  import opened CurvePoints
  import opened ScalarMul
  import opened ByteStrings
  import opened WeierstrassCurve
  import opened EcSrp5

  const P: nat := 0x7fffffffffffffffffffffffffffffffffffffffffffffffffffffffffffffed
  const CURVE_ORDER: nat := 0x1000000000000000000000000000000014def9dea2f79cd65812631a5cf5d3ed
  const WEIERSTRASS_A: nat := 0x2aaaaaaaaaaaaaaaaaaaaaaaaaaaaaaaaaaaaaaaaaaaaaaaaaaaaa984914a144
  const MONT_A: nat := 486662

  const CURVE := Params(P, WEIERSTRASS_A, MONT_A, CURVE_ORDER)

  /// 3 a = 3 - A^2 + p, over the integers.
  lemma CoefficientRelation()
    ensures Cong(3 * WEIERSTRASS_A, 3 - MONT_A * MONT_A, P)
  {
    assert 3 * WEIERSTRASS_A == 3 - MONT_A * MONT_A + 1 * P;
    FromWitness(3 * WEIERSTRASS_A, 3 - MONT_A * MONT_A, 1, P);
  }

  /// Every requirement on the constants, given that P is prime. The square root then
  /// takes the branch for p = 5 mod 8.
  lemma ConstantsValid()
    requires IsPrime(P)
    ensures CURVE.Valid() && CURVE.Fits() && SmallShift(P)
    ensures P % 8 == 5 && CURVE_ORDER % 2 == 1
  {
    CoefficientRelation();
  }

  /// Curve25519, with any order of the generator.
  predicate IsCurve25519(w: Params) {
    w.p == P && w.a == WEIERSTRASS_A && w.montA == MONT_A
  }

  lemma ParamsValid(w: Params)
    requires IsPrime(P) && IsCurve25519(w)
    ensures w.Valid() && w.Fits() && SmallShift(w.p)
  {
    ConstantsValid();
  }

  /// The hypotheses about the curve that are not proved here, by name.
  lemma Curve25519Trusted(w: Params)
    requires IsPrime(P) && IsCurve25519(w) && w.Valid()
    requires Associative(w.C())
    requires w.r % 2 == 1 && Times(w.C(), w.r, G(w)) == INFINITY
    ensures TrustedCurve(w) && SmallShift(w.p)
  {
    hide Times, G, Associative, Params.FromM, Params.B;
    ParamsValid(w);
  }

  /// The conversion constant A/3.
  lemma DerivedFromM(w: Params)
    requires IsPrime(P) && IsCurve25519(w) && w.Valid()
    ensures w.FromM() == 0x2aaaaaaaaaaaaaaaaaaaaaaaaaaaaaaaaaaaaaaaaaaaaaaaaaaaaaaaaaad2451
  {
    hide Params.FromM;
    var c := 0x2aaaaaaaaaaaaaaaaaaaaaaaaaaaaaaaaaaaaaaaaaaaaaaaaaaaaaaaaaad2451;
    FromMIsThird(w);
    assert 3 * c == MONT_A + 1 * P;
    FromWitness(3 * c, MONT_A, 1, P);
    ThreeNonZero(w.p);
    Cancel(w.p, 3, w.FromM(), c);
    CongSmall(w.FromM(), c, P);
  }

  /// The constants the research notes list, from their defining equations.
  lemma DerivedConstants(w: Params)
    requires IsPrime(P) && IsCurve25519(w) && w.Valid()
    ensures w.FromM() == 0x2aaaaaaaaaaaaaaaaaaaaaaaaaaaaaaaaaaaaaaaaaaaaaaaaaaaaaaaaaad2451
    ensures w.B() == 0x7b425ed097b425ed097b425ed097b425ed097b425ed097b4260b5e9c7710c864
  {
    hide Params.FromM;
    DerivedFromM(w);
    var c := 0x2aaaaaaaaaaaaaaaaaaaaaaaaaaaaaaaaaaaaaaaaaaaaaaaaaaaaaaaaaad2451;
    var b := 0x7b425ed097b425ed097b425ed097b425ed097b425ed097b4260b5e9c7710c864;
    var q :=
      0x4bda12f684bda12f684bda12f684bda12f684bda12f684bda12f684bda202a071c71c71c71c71c71c71c71c71c71c71c71c71c71c71c71c71c71c7e080bc841;
    assert 2 * (c * c * c) - c == q * P + b;
    DivModUnique(2 * (c * c * c) - c, P, q, b);
  }

  /// A square root of the curve equation at x = 9, so the generator is a finite point.
  lemma GeneratorFinite(w: Params)
    requires IsPrime(P) && IsCurve25519(w) && w.Valid()
    ensures !G(w).infinity && OnCurve(w.C(), G(w))
    ensures FromBytesBE(ToMontgomery(w, G(w)).0) == 9
  {
    hide Params.FromM, Params.ToM, Params.B, FromBytesBE, ToBytesBE, Pad32;
    ParamsValid(w);
    var y := 0x20ae19a1b8a086b4e01edd2c7748d14c923d4d7e6d7c61b229e9c5a27eced3d9;
    assert LiftValue(w, 9) == 39420360;
    RootMakesSquare(39420360, y, P);
    LiftIs(w, 9, false, G(w));
    GeneratorOnCurve(w);
    CompressedLift(w, 9, false);
  }
}

/// A run of the EC-SRP5 handshake in which a wrong password is refused: when the two z are
/// the same, and that the hypotheses of `Handshake.Run` and different codes occur together.
module WrongPassword {
  import opened CurvePoints
  import opened ScalarMul
  import opened ByteStrings
  import opened WeierstrassCurve
  import opened EcSrp5
  import opened Handshake

  // ---- When two points compress to one z ----

  /// For finite points, exactly when one is the other or its inverse.
  lemma SameZ(w: Params, s: Point, o: Point)
    requires w.Valid() && w.Fits() && OnCurve(w.C(), s) && OnCurve(w.C(), o) && !s.infinity && !o.infinity
    ensures ToMontgomery(w, s).0 == ToMontgomery(w, o).0 <==> o == s || o == Negate(w.C(), s)
  {
    hide OnCurve, Negate, FromBytesBE, Params.FromM, Params.B, ToMontgomery, Params.Valid, LiftX, LiftValue;
    assert w.C().Valid() by { ParamsCurveValid(w); }
    var (x, parity) := ToMontgomery(w, s);
    LiftOfCompressed(w, s);
    LiftOfCompressed(w, o);
    TwoLifts(w, FromBytesBE(x), s, parity != 0);
    if o == Negate(w.C(), s) { NegatedCompressed(w, s); }
  }

  /// Above one coordinate there are only a point and its inverse.
  lemma TwoLifts(w: Params, x: nat, s: Point, parity: bool)
    requires w.Valid() && OnCurve(w.C(), s) && s == Lift(w, x, parity)
    ensures Lift(w, x, !parity) == Negate(w.C(), s)
  {
    hide OnCurve, Negate, LiftX, LiftValue;
    assert w.C().Valid() by { ParamsCurveValid(w); }
    LiftNegates(w, x);
    LiftOnCurve(w, x, true);
    NegateInverts(w.C(), Lift(w, x, true));
  }

  lemma NegatedCompressed(w: Params, s: Point)
    requires w.p > 2 && !s.infinity
    ensures ToMontgomery(w, Negate(w.C(), s)).0 == ToMontgomery(w, s).0
  {
    hide Params.FromM;
  }

  // ---- Small multiples of the generator ----

  /// No point of odd order but infinity doubles to infinity.
  lemma DoublesToInfinity(c: Curve, s: Point, r: nat)
    requires c.Valid() && Associative(c) && OnCurve(c, s) && OddOrder(c, s, r) && Times(c, 2, s) == INFINITY
    ensures s == INFINITY
  {
    hide Add, GroupAdd, OnCurve, Associative;
    TimesTwo(c, s);
    TimesHalves(c, r, s);
    TimesInfinity(c, r / 2);
    Unit(c, s);
  }

  /// A finite generator is neither its own triple nor the inverse of that.
  lemma TripleDiffers(c: Curve, g: Point, r: nat)
    requires OddGroup(c, g, r) && !g.infinity
    ensures var t := Times(c, 3, g); OnCurve(c, t) && t != g && t != Negate(c, g)
  {
    hide Add, GroupAdd, OnCurve, Associative, OddOrder, Negate;
    var (two, t) := (Times(c, 2, g), Times(c, 3, g));
    OddOrderMultiple(c, g, r, 2);
    TimesOnCurve(c, 3, g);
    TimesTwo(c, g);
    TimesAdd(c, 2, 1, g);
    NegateInverts(c, g);
    Unit(c, two);
    Unit(c, g);
    if t == g {
      Assoc(c, two, g, Negate(c, g));
      DoublesToInfinity(c, g, r);
      OnlyInfinity(c, g);
    } else if t == Negate(c, g) {
      TimesAdd(c, 1, 3, g);
      TimesTimes(c, 2, 2, g);
      DoublesToInfinity(c, two, r);
      DoublesToInfinity(c, g, r);
      OnlyInfinity(c, g);
    }
  }

  lemma OnlyInfinity(c: Curve, s: Point)
    requires OnCurve(c, s)
    ensures s.infinity <==> s == INFINITY
  {
  }

  // ---- A hash function, passwords and secrets ----

  /// The number k in 32 bytes.
  function Small(k: byte): Bytes32 {
    Zeros(31) + [k]
  }

  lemma SmallValue(k: byte)
    ensures FromBytesBE(Small(k)) == k
  {
    hide FromBytesBE;
    LeadingZeros(31, [k]);
    OneByte(k);
  }

  /// "name:password" has one byte or two, the salted string 48 and a pair of keys or codes
  /// 64; whatever else is hashed gives 9, the coordinate of the generator.
  function SampleHash(keys: seq<byte>, z: Bytes32): Sha256 {
    (x: seq<byte>) =>
      if |x| == 1 then Filled(1)
      else if |x| == 2 then Filled(2)
      else if |x| == 48 then Small(if x[47] == 1 then 1 else 0)
      else if x == keys then Small(2)
      else if |x| == 64 then Filled(if x[32..] == z then 1 else 0)
      else Small(9)
  }

  lemma SampleValidators(h: Sha256, keys: seq<byte>, z: Bytes32, salt: Bytes16)
    requires |keys| == 64 && h == SampleHash(keys, z)
    ensures ValidatorPriv(h, [], [], salt) == Small(1) && ValidatorPriv(h, [], [0], salt) == Small(0)
  {
    assert (salt + Filled(1))[47] == 1 && (salt + Filled(2))[47] == 2;
    assert [] + [58] + [] == [58] && [] + [58] + [0] == [58, 0];
  }

  /// The two codes differ, whatever the keys are.
  lemma SampleCodes(h: Sha256, keys: seq<byte>, z: Bytes32, z': Bytes32)
    requires |keys| == 64 && h == SampleHash(keys, z) && z != z'
    ensures h(keys) == Small(2) && h(Small(2) + z) != h(Small(2) + z')
  {
    var j := Small(2);
    assert (j + z)[32..] == z && (j + z')[32..] == z';
    assert Small(2)[31] == 2 && Filled(0)[31] == 0 && Filled(1)[31] == 1;
  }

  lemma HashesToGenerator(w: Params, h: Sha256, x: seq<byte>)
    requires w.Valid() && !G(w).infinity && h(x) == Small(9) && h(Small(9)) == Small(9)
    ensures Lands(w, h, x) && HashToCurve(w, h, x, false) == G(w)
  {
    hide LiftX, LiftValue, FromBytesBE, Small;
    SmallValue(9);
    LiftIs(w, 9, false, G(w));
    assert Candidate(h, x, 0) == 9;
    assert LandsAt(w, h, x, 0);
    assert FirstLanding(w, h, x) == 0;
  }

  /// 1 G and 2 G by the code, and 2 G is finite.
  lemma FirstMultiples(w: Params)
    requires TrustedCurve(w) && !G(w).infinity
    ensures var c, g := w.C(), G(w);
            && OddGroup(c, g, w.r) && w.r > 1
            && Times(c, 1, g) == g && ScalarMulSpec(c, 1, g) == g && Add(c, g, g) == Times(c, 2, g)
            && !Times(c, 2, g).infinity && OnCurve(c, Times(c, 2, g)) && !Vertical(g)
  {
    hide Add, GroupAdd, OnCurve, Associative, G, ScalarMulSpec, Params.FromM, Params.B;
    var c, g := w.C(), G(w);
    TrustedGroup(w);
    GeneratorMultiple(c, g, w.r, 1);
    TimesTwo(c, g);
    TimesOnCurve(c, 2, g);
    AddIsGroupAdd(c, g, g);
    if Times(c, 2, g).infinity {
      OnlyInfinity(c, Times(c, 2, g));
      DoublesToInfinity(c, g, w.r);
      OnlyInfinity(c, g);
    }
    if w.r == 1 { OnlyInfinity(c, g); }
  }

  ghost predicate AllToGenerator(h: Sha256) {
    forall x: Bytes32 :: h(x) == Small(9)
  }

  lemma SampleServer(w: Params, h: Sha256)
    requires TrustedCurve(w) && !G(w).infinity && AllToGenerator(h)
    ensures PublicKey(w, Small(1)) == ToMontgomery(w, G(w))
    ensures FinitePoints(w, h, Small(1), Small(1), Small(1))
    ensures WireKey(w, h, PublicKey(w, Small(1)).0, Small(1)) == ToMontgomery(w, Times(w.C(), 2, G(w)))
    ensures SharedPoint(w, Small(1), Small(1), Small(1), Small(2)) == Times(w.C(), 3, G(w))
  {
    hide Add, GroupAdd, OnCurve, Associative, OddOrder, G, ScalarMulSpec, Params.FromM, Params.B, Vertical;
    hide FromBytesBE, Small, Lands, HashToCurve, ToMontgomery, Times;
    SmallValue(1);
    SmallValue(2);
    FirstMultiples(w);
    HashesToGenerator(w, h, PublicKey(w, Small(1)).0);
    assert SecretScalar(1, 2, 1, 1) == 3;
  }

  lemma SampleClient(w: Params, h: Sha256)
    requires TrustedCurve(w) && !G(w).infinity && AllToGenerator(h)
    ensures Lands(w, h, PublicKey(w, Small(1)).0) && Lands(w, h, PublicKey(w, Small(0)).0)
    ensures var keyB := WireKey(w, h, PublicKey(w, Small(1)).0, Small(1));
            ClientPoint(w, h, Small(0), Small(1), Small(2), keyB) == G(w)
  {
    hide Add, GroupAdd, OnCurve, Associative, OddOrder, G, ScalarMulSpec, Params.FromM, Params.B, Vertical, Negate;
    hide FromBytesBE, Small, Lands, HashToCurve, ToMontgomery, Times, ClientPoint, WireKey;
    SmallValue(0);
    SmallValue(1);
    SmallValue(2);
    FirstMultiples(w);
    HashesToGenerator(w, h, PublicKey(w, Small(1)).0);
    HashesToGenerator(w, h, PublicKey(w, Small(0)).0);
    ClientPointBlinded(w, h, Small(0), Small(1), Small(2), PublicKey(w, Small(1)).0, Small(1));
    OnlyInfinity(w.C(), G(w));
    AddThenCancel(w.C(), G(w), G(w));
    OneModulo(w.r);
  }

  lemma OneModulo(r: nat)
    requires r > 1
    ensures (0 * 2 + 1) % r == 1
  {
  }

  /// For some hash function, passwords and secrets the code of a client with another
  /// password differs from the server's, so that the server refuses it.
  lemma WrongPasswordRefused(w: Params)
    requires TrustedCurve(w) && !Times(w.C(), 3, G(w)).infinity
    ensures exists h: Sha256, name: seq<byte>, clientPassword: seq<byte>, serverPassword: seq<byte>, salt: Bytes16,
                   sA: Bytes32, sB: Bytes32 ::
              NameFits(name) && CodesDiffer(w, h, name, clientPassword, serverPassword, salt, sA, sB)
  {
    hide Add, GroupAdd, OnCurve, Associative, OddOrder, G, ScalarMulSpec, Params.FromM, Params.B, Vertical, Negate;
    hide FromBytesBE, Small, Lands, HashToCurve, ToMontgomery, Times, ClientPoint, WireKey, FinitePoints, SharedPoint;
    hide ValidatorPriv, PublicKey, SampleHash;
    var c, g := w.C(), G(w);
    TripleOfInfinity(w);
    FirstMultiples(w);
    TripleDiffers(c, g, w.r);
    SameZ(w, g, Times(c, 3, g));
    var (z, z') := (ToMontgomery(w, g).0, ToMontgomery(w, Times(c, 3, g)).0);
    var keys := ToMontgomery(w, g).0 + ToMontgomery(w, Times(c, 2, g)).0;
    var h := SampleHash(keys, z);
    var salt: Bytes16 := Zeros(16);
    SampleSpreads(h, keys, z);
    SampleServer(w, h);
    SampleClient(w, h);
    SampleValidators(h, keys, z, salt);
    SampleCodes(h, keys, z, z');
    assert CodesDiffer(w, h, [], [0], [], salt, Small(1), Small(1));
  }

  lemma SampleSpreads(h: Sha256, keys: seq<byte>, z: Bytes32)
    requires |keys| == 64 && h == SampleHash(keys, z)
    ensures AllToGenerator(h)
  {
  }

  lemma TripleOfInfinity(w: Params)
    requires TrustedCurve(w) && !Times(w.C(), 3, G(w)).infinity
    ensures !G(w).infinity
  {
    hide Add, OnCurve, Associative, OddOrder, G, Params.FromM, Params.B;
    TrustedGroup(w);
    OnlyInfinity(w.C(), G(w));
    if G(w).infinity { TimesInfinity(w.C(), 3); }
  }
}

/// Both sides of the EC-SRP5 handshake of `src/ecsrp5.rs`, and the proof that they
/// derive the same `z` and accept each other's confirmation code.
///
/// SHA-256 is an arbitrary function `h` to 32 bytes; the random values are parameters;
/// the stream delivers what was written.
module EcSrp5 {
  import opened ModArith
  import opened NumberTheory
  import opened FieldSqrt
  import opened CurvePoints
  import opened ScalarMul
  import opened ByteStrings
  import opened WeierstrassCurve

  type Bytes16 = s: seq<byte> | |s| == 16 witness seq(16, i => 0)

  datatype AuthError =
    | UnexpectedEof
    | NoTerminator
    | AuthFailed
    | MessageTooShort
    | ChallengeTooShort
    | ConfirmationMismatch

  datatype Outcome<+T> = Ok(value: T) | Err(error: AuthError)

  /// The curve facts that are taken on trust: the group operation is associative and the
  /// generator has the odd order CURVE_ORDER. Primality of P is part of `Valid`.
  ghost predicate TrustedCurve(w: Params) {
    && w.Valid() && w.Fits() && w.r > 0
    && Associative(w.C())
    && OddOrder(w.C(), G(w), w.r)
  }

  // ---- Credentials ----

  datatype Credentials = Credentials(salt: Bytes16, xGamma: Bytes32, gammaParity: bool)

  /// `gen_password_validator_priv`; 58 is ':'.
  function ValidatorPriv(h: Sha256, username: seq<byte>, password: seq<byte>, salt: Bytes16): Bytes32 {
    var inner := h(username + [58] + password);
    h(salt + inner)
  }

  /// h does not give the two strings one hash.
  ghost predicate Separates(h: Sha256, x: seq<byte>, y: seq<byte>) {
    h(x) == h(y) ==> x == y
  }

  /// A hash function with no collision between "name:password" and "name':password'", nor
  /// between the two salted strings, tells apart passwords, salts, and names without ':'.
  lemma ValidatorSeparates(h: Sha256, name: seq<byte>, pass: seq<byte>, salt: Bytes16,
                           name': seq<byte>, pass': seq<byte>, salt': Bytes16)
    requires name == name' || (58 !in name && 58 !in name')
    requires Separates(h, name + [58] + pass, name' + [58] + pass')
    requires Separates(h, salt + h(name + [58] + pass), salt' + h(name' + [58] + pass'))
    ensures ValidatorPriv(h, name, pass, salt) == ValidatorPriv(h, name', pass', salt') <==>
              name == name' && pass == pass' && salt == salt'
  {
    var (u, v) := (name + [58] + pass, name' + [58] + pass');
    if salt + h(u) == salt' + h(v) {
      assert (salt + h(u))[..16] == salt && (salt' + h(v))[..16] == salt';
      assert (salt + h(u))[16..] == h(u) && (salt' + h(v))[16..] == h(v);
      NameEndsAtColon(name, pass, name', pass');
    }
  }

  lemma NameEndsAtColon(name: seq<byte>, pass: seq<byte>, name': seq<byte>, pass': seq<byte>)
    requires name == name' || (58 !in name && 58 !in name')
    requires name + [58] + pass == name' + [58] + pass'
    ensures name == name' && pass == pass'
  {
    var u := name + [58] + pass;
    assert u == name' + [58] + pass';
    assert u[|name|] == 58 && u[|name'|] == 58;
    assert forall i :: 0 <= i < |name| ==> u[i] == name[i];
    assert forall i :: 0 <= i < |name'| ==> u[i] == name'[i];
    assert |name| == |name'|;
    assert u[..|name|] == name && u[..|name'|] == name';
    assert u[|name| + 1..] == pass && u[|name'| + 1..] == pass';
  }

  function Filled(b: byte): Bytes32 {
    seq(32, i => b)
  }

  /// And there is such a function for every two different triples.
  lemma ValidatorDepends(name: seq<byte>, pass: seq<byte>, salt: Bytes16,
                         name': seq<byte>, pass': seq<byte>, salt': Bytes16)
    requires name == name' || (58 !in name && 58 !in name')
    requires name != name' || pass != pass' || salt != salt'
    ensures exists h: Sha256 :: ValidatorPriv(h, name, pass, salt) != ValidatorPriv(h, name', pass', salt')
  {
    var (u, v) := (name + [58] + pass, name' + [58] + pass');
    if u == v { NameEndsAtColon(name, pass, name', pass'); }
    var a := UnusedFill(salt, salt', u, v, 0);
    var b := UnusedFill(salt, salt', u, v, 5);
    assert Filled(a)[0] == a && Filled(b)[0] == b;
    var inner := if u == v then Filled(a) else Filled(b);
    var first := salt + Filled(a);
    assert first[..16] == salt && first[16..] == Filled(a);
    assert (salt' + inner)[..16] == salt' && (salt' + inner)[16..] == inner;
    var h: Sha256 := (x: seq<byte>) =>
      if x == u then Filled(a) else if x == v then Filled(b) else if x == first then Filled(a) else Filled(b);
    assert ValidatorPriv(h, name, pass, salt) == Filled(a);
    assert ValidatorPriv(h, name', pass', salt') == Filled(b);
  }

  /// A filling that ends neither u nor v.
  lemma UnusedFill(salt: Bytes16, salt': Bytes16, u: seq<byte>, v: seq<byte>, first: nat) returns (b: byte)
    requires first <= 250
    ensures first <= b < first + 3
    ensures salt + Filled(b) != u && salt + Filled(b) != v && salt' + Filled(b) != u && salt' + Filled(b) != v
  {
    var (lastU, lastV) := (if u == [] then 0 else u[|u| - 1], if v == [] then 0 else v[|v| - 1]);
    b := if first != lastU && first != lastV then first
         else if first + 1 != lastU && first + 1 != lastV then first + 1
         else first + 2;
    assert (salt + Filled(b))[47] == b && (salt' + Filled(b))[47] == b;
  }

  ghost function CredentialsFor(w: Params, h: Sha256, username: seq<byte>, password: seq<byte>,
                                salt: Bytes16): Credentials
    requires w.Valid()
  {
    var (x, parity) := PublicKey(w, ValidatorPriv(h, username, password, salt));
    Credentials(salt, x, parity != 0)
  }

  /// `EcSrp5Credentials::derive`.
  method Derive(w: Params, h: Sha256, username: seq<byte>, password: seq<byte>, salt: Bytes16)
    returns (creds: Credentials)
    requires w.Valid() && SmallShift(w.p)
    ensures creds == CredentialsFor(w, h, username, password, salt)
    ensures creds.salt == salt
    ensures var (x, parity) := PublicKey(w, h(salt + h(username + [58] + password)));
            creds.xGamma == x && (creds.gammaParity <==> parity != 0)
  {
    var g := NewGenerator(w);
    var i := ValidatorPriv(h, username, password, salt);
    var key := GenPublicKey(w, g, i);
    creds := Credentials(salt, key.0, key.1 != 0);
  }

  // ---- The points both sides compute ----

  function ChallengeHash(h: Sha256, xWa: Bytes32, xWb: Bytes32): Bytes32 {
    h(xWa + xWb)
  }

  /// s_b G + redp1(x_gamma, 0)
  ghost function BlindedKey(w: Params, h: Sha256, xGamma: Bytes32, sB: Bytes32): Point
    requires w.Valid() && Lands(w, h, xGamma)
  {
    Add(w.C(), ScalarMulSpec(w.C(), FromBytesBE(sB), G(w)), HashToCurve(w, h, xGamma, false))
  }

  ghost function Unblinded(w: Params, h: Sha256, xGamma: Bytes32, keyB: (Bytes32, nat)): Point
    requires w.Valid() && Lands(w, h, xGamma)
  {
    Add(w.C(), Lift(w, FromBytesBE(keyB.0), keyB.1 != 0), HashToCurve(w, h, xGamma, true))
  }

  /// ((i j + s_a) mod r) (lift(W_b) + redp1(x_gamma, 1))
  ghost function ClientPoint(w: Params, h: Sha256, i: Bytes32, sA: Bytes32, j: Bytes32, keyB: (Bytes32, nat)): Point
    requires w.Valid() && w.r > 0 && Lands(w, h, PublicKey(w, i).0)
  {
    var scalar := (FromBytesBE(i) * FromBytesBE(j) + FromBytesBE(sA)) % w.r;
    ScalarMulSpec(w.C(), scalar, Unblinded(w, h, PublicKey(w, i).0, keyB))
  }

  /// s_b (lift(W_a) + j gamma)
  ghost function ServerPoint(w: Params, creds: Credentials, sB: Bytes32, j: Bytes32, keyA: (Bytes32, nat)): Point
    requires w.Valid()
  {
    var wA := Lift(w, FromBytesBE(keyA.0), keyA.1 != 0);
    var gamma := Lift(w, FromBytesBE(creds.xGamma), creds.gammaParity);
    var sum := Add(w.C(), wA, ScalarMulSpec(w.C(), FromBytesBE(j), gamma));
    ScalarMulSpec(w.C(), FromBytesBE(sB), sum)
  }

  // ---- Agreement, for any generator of odd order ----

  /// A generator of odd order in an associative group.
  ghost predicate OddGroup(c: Curve, g: Point, r: nat) {
    c.Valid() && Associative(c) && OnCurve(c, g) && r > 0 && OddOrder(c, g, r)
  }

  /// `scalar_mul` on the generator, with what holds of every multiple.
  lemma GeneratorMultiple(c: Curve, g: Point, r: nat, k: nat)
    requires OddGroup(c, g, r)
    ensures ScalarMulSpec(c, k, g) == Times(c, k, g)
    ensures OnCurve(c, Times(c, k, g)) && !Vertical(Times(c, k, g))
  {
    hide Add, GroupAdd, OnCurve, ScalarMulSpec, Vertical, OddOrder, DoublesSafely;
    OddOrderIsSafe(c, g, r);
    ScalarMulSafe(c, g, k);
    OddOrderMultiple(c, g, r, k);
    OddOrderNotVertical(c, Times(c, k, g), r);
  }

  /// The scalar both sides multiply the generator by.
  function SecretScalar(i: nat, j: nat, sA: nat, sB: nat): nat {
    sB * (sA + j * i)
  }

  /// Client: ((i j + s_a) mod r) (s_b G) = s_b (s_a + j i) G.
  lemma ClientScalars(c: Curve, g: Point, r: nat, i: nat, j: nat, sA: nat, sB: nat)
    requires OddGroup(c, g, r)
    ensures ScalarMulSpec(c, (i * j + sA) % r, Times(c, sB, g)) == Times(c, SecretScalar(i, j, sA, sB), g)
  {
    hide Add, GroupAdd, OnCurve, ScalarMulSpec, OddOrder;
    var n := i * j + sA;
    OddOrderMul(c, g, r, sB, n % r);
    TimesTimes(c, n % r, sB, g);
    OddOrderMultiple(c, g, r, sB);
    OrderOf(c, Times(c, sB, g), r);
    TimesMod(c, n, r, Times(c, sB, g));
    TimesTimes(c, n, sB, g);
    ScalarsAgree(i, j, sA, sB);
  }

  lemma ScalarsAgree(i: nat, j: nat, sA: nat, sB: nat)
    ensures (i * j + sA) * sB == SecretScalar(i, j, sA, sB)
  {
  }

  lemma OrderOf(c: Curve, s: Point, r: nat)
    requires c.p > 2 && OddOrder(c, s, r)
    ensures Times(c, r, s) == INFINITY
  {
  }

  /// Server: s_b (s_a G + j (i G)) = s_b (s_a + j i) G.
  lemma ServerScalars(c: Curve, g: Point, r: nat, i: nat, j: nat, sA: nat, sB: nat)
    requires OddGroup(c, g, r)
    ensures ScalarMulSpec(c, sB, Add(c, Times(c, sA, g), ScalarMulSpec(c, j, Times(c, i, g))))
         == Times(c, SecretScalar(i, j, sA, sB), g)
  {
    hide Add, GroupAdd, OnCurve, ScalarMulSpec, Vertical, OddOrder;
    OddOrderMul(c, g, r, i, j);
    GeneratorMultiple(c, g, r, sA);
    AddIsGroupAdd(c, Times(c, sA, g), Times(c, j * i, g));
    TimesAdd(c, sA, j * i, g);
    OddOrderMul(c, g, r, sA + j * i, sB);
  }

  /// Adding a point and its inverse. The code loses the sum in one case: it was the
  /// added point itself, and that point has y = 0.
  lemma AddThenCancel(c: Curve, s: Point, b: Point)
    requires c.Valid() && Associative(c) && OnCurve(c, s) && OnCurve(c, b) && !Vertical(s)
    ensures Add(c, Add(c, s, b), Negate(c, b)) == s <==> !(s == INFINITY && Vertical(b))
  {
    hide Add, GroupAdd, OnCurve, Negate;
    var n, m := Negate(c, b), GroupAdd(c, s, b);
    AddIsGroupAdd(c, s, b);
    GroupAddIsSum(c, s, b);
    NegateInverts(c, b);
    Assoc(c, s, b, n);
    Unit(c, s);
    Unit(c, b);
    VerticalIsOwnInverse(c, b);
    if Vertical(m) && m == n {
      assert n == b;
      VerticalDoubling(c, b);
    } else {
      AddIsGroupAdd(c, m, n);
    }
  }

  lemma VerticalIsOwnInverse(c: Curve, b: Point)
    requires c.Valid() && OnCurve(c, b)
    ensures Vertical(b) ==> Negate(c, b) == b
    ensures Vertical(Negate(c, b)) ==> Vertical(b)
  {
    if !b.infinity { NegateOrdinate(c.p, b.y); }
  }

  // ---- Agreement of the two sides ----

  ghost function Multiple(w: Params, k: Bytes32): Point
    requires w.Valid()
  {
    Times(w.C(), FromBytesBE(k), G(w))
  }

  lemma TrustedGroup(w: Params)
    requires TrustedCurve(w)
    ensures OddGroup(w.C(), G(w), w.r)
  {
    hide OnCurve, Associative, OddOrder, G, Params.FromM, Params.B;
    assert w.C().Valid() by { ParamsCurveValid(w); }
    GeneratorOnCurve(w);
  }

  /// A finite public key survives the wire.
  lemma KeyOnTheWire(w: Params, k: Bytes32)
    requires TrustedCurve(w) && !Multiple(w, k).infinity
    ensures var (x, parity) := PublicKey(w, k);
            Lift(w, FromBytesBE(x), parity != 0) == Multiple(w, k)
  {
    hide OnCurve, ScalarMulSpec, ToMontgomery, G, Params.FromM, Params.B, FromBytesBE, OddOrder, Associative;
    TrustedGroup(w);
    GeneratorMultiple(w.C(), G(w), w.r, FromBytesBE(k));
    LiftOfCompressed(w, Multiple(w, k));
  }

  /// The key pair of the server as it goes over the wire.
  ghost function WireKey(w: Params, h: Sha256, xGamma: Bytes32, sB: Bytes32): (Bytes32, nat)
    requires w.Valid() && Lands(w, h, xGamma)
  {
    ToMontgomery(w, BlindedKey(w, h, xGamma, sB))
  }

  /// Unblinding gives s_b G back unless s_b G is infinity and the blinding point has y = 0.
  lemma UnblindingExact(w: Params, h: Sha256, xGamma: Bytes32, sB: Bytes32)
    requires TrustedCurve(w) && Lands(w, h, xGamma) && !BlindedKey(w, h, xGamma, sB).infinity
    ensures Unblinded(w, h, xGamma, WireKey(w, h, xGamma, sB)) == Multiple(w, sB)
       <==> !(Multiple(w, sB) == INFINITY && Vertical(HashToCurve(w, h, xGamma, false)))
  {
    hide Add, GroupAdd, OnCurve, ScalarMulSpec, ToMontgomery, G, Params.FromM, Params.B, FromBytesBE;
    hide OddOrder, Associative, HashToCurve, Negate, Vertical, Lands;
    var c, s, b := w.C(), Multiple(w, sB), HashToCurve(w, h, xGamma, false);
    TrustedGroup(w);
    GeneratorMultiple(c, G(w), w.r, FromBytesBE(sB));
    Redp1Opposite(w, h, xGamma);
    AddIsGroupAdd(c, s, b);
    GroupAddIsSum(c, s, b);
    LiftOfCompressed(w, BlindedKey(w, h, xGamma, sB));
    AddThenCancel(c, s, b);
  }

  /// The client's point for its own i, from a server key that was blinded for x_gamma:
  /// ((i j + s_a) mod r) (s_b G + f - f'), where f and f' are the blinding points, of even y,
  /// of the server's verifier and of the client's.
  lemma ClientPointBlinded(w: Params, h: Sha256, i: Bytes32, sA: Bytes32, j: Bytes32, xGamma: Bytes32, sB: Bytes32)
    requires TrustedCurve(w) && Lands(w, h, xGamma) && Lands(w, h, PublicKey(w, i).0)
    requires !BlindedKey(w, h, xGamma, sB).infinity
    ensures var c, f, f' := w.C(), HashToCurve(w, h, xGamma, false), HashToCurve(w, h, PublicKey(w, i).0, false);
            && !f.infinity && f.y % 2 == 0 && !f'.infinity && f'.y % 2 == 0
            && ClientPoint(w, h, i, sA, j, WireKey(w, h, xGamma, sB))
            == ScalarMulSpec(c, (FromBytesBE(i) * FromBytesBE(j) + FromBytesBE(sA)) % w.r,
                             Add(c, Add(c, Times(c, FromBytesBE(sB), G(w)), f), Negate(c, f')))
  {
    hide Add, GroupAdd, OnCurve, ScalarMulSpec, ToMontgomery, G, Params.FromM, Params.B, FromBytesBE;
    hide OddOrder, Associative, HashToCurve, Negate, Vertical, Lands, PublicKey;
    var c, s := w.C(), Multiple(w, sB);
    TrustedGroup(w);
    GeneratorMultiple(c, G(w), w.r, FromBytesBE(sB));
    Redp1Opposite(w, h, xGamma);
    Redp1Opposite(w, h, PublicKey(w, i).0);
    AddIsGroupAdd(c, s, HashToCurve(w, h, xGamma, false));
    GroupAddIsSum(c, s, HashToCurve(w, h, xGamma, false));
    LiftOfCompressed(w, BlindedKey(w, h, xGamma, sB));
    BlindingPointEven(w, h, xGamma);
    BlindingPointEven(w, h, PublicKey(w, i).0);
  }

  lemma BlindingPointEven(w: Params, h: Sha256, x: seq<byte>)
    requires w.Valid() && Lands(w, h, x)
    ensures var f := HashToCurve(w, h, x, false); !f.infinity && f.y % 2 == 0
  {
    hide LiftX, LiftValue, Candidate;
    Redp1Opposite(w, h, x);
    LiftIs(w, Candidate(h, x, FirstLanding(w, h, x)), false, HashToCurve(w, h, x, false));
  }

  /// A candidate that p divides lifts to the point with y = 0 of the Montgomery form.
  lemma ZeroCandidate(w: Params, h: Sha256, x: seq<byte>, parity: bool)
    requires w.Valid() && Lands(w, h, x) && Candidate(h, x, FirstLanding(w, h, x)) % w.p == 0
    ensures Vertical(HashToCurve(w, h, x, parity))
  {
    hide LiftX, LiftValue, Candidate, Cong;
    var xInt := Candidate(h, x, FirstLanding(w, h, x));
    var pt := Lift(w, xInt, parity);
    LiftIs(w, xInt, parity, pt);
    LiftValueOfZero(w, xInt);
    SquareRootOfZero(w.p, pt.y);
  }

  lemma LiftValueOfZero(w: Params, u: nat)
    requires w.p > 2 && u % w.p == 0
    ensures LiftValue(w, u) == 0
  {
    DivModUnique(0, w.p, 0, 0);
  }

  lemma SquareRootOfZero(p: nat, y: nat)
    requires IsPrime(p) && y < p && Cong(y * y, 0, p)
    ensures y == 0
  {
    Euclid(p, y, y);
    DivModUnique(y, p, 0, y);
    DivModUnique(0, p, 0, 0);
  }

  /// The lost case of unblinding does occur, for some hash function and secrets.
  lemma UnblindingCanFail(w: Params)
    requires TrustedCurve(w)
    ensures exists h: Sha256, xGamma: Bytes32, sB: Bytes32 ::
              && Lands(w, h, xGamma) && !BlindedKey(w, h, xGamma, sB).infinity
              && Unblinded(w, h, xGamma, WireKey(w, h, xGamma, sB)) != Multiple(w, sB)
  {
    hide G, Params.FromM, Params.B, LiftX, Associative, OddOrder, ToMontgomery;
    var zero: Bytes32 := Zeros(32);
    var h: Sha256 := (x: seq<byte>) => zero;
    LeadingZeros(32, []);
    assert zero == zero + [] && FromBytesBE(zero) == 0;
    assert LandsAt(w, h, zero, 0) by {
      DivModUnique(0, w.p, 0, 0);
      LiftValueOfZero(w, 0);
      RootMakesSquare(0, 0, w.p);
    }
    assert Candidate(h, zero, FirstLanding(w, h, zero)) == 0;
    DivModUnique(0, w.p, 0, 0);
    ZeroCandidate(w, h, zero, false);
    assert Multiple(w, zero) == INFINITY && BlindedKey(w, h, zero, zero) == HashToCurve(w, h, zero, false);
    UnblindingExact(w, h, zero, zero);
  }

  /// What is asked of a run: the points that go over the wire are finite, and the lost
  /// case of unblinding does not occur.
  ghost predicate FinitePoints(w: Params, h: Sha256, i: Bytes32, sA: Bytes32, sB: Bytes32)
    requires w.Valid()
  {
    var x := PublicKey(w, i).0;
    && !Multiple(w, sA).infinity && !Multiple(w, i).infinity
    && Lands(w, h, x)
    && !BlindedKey(w, h, x, sB).infinity
    && !(Multiple(w, sB) == INFINITY && Vertical(HashToCurve(w, h, x, false)))
  }

  /// The secret of the run, s_b (s_a + j i) G.
  ghost function SharedPoint(w: Params, i: Bytes32, sA: Bytes32, sB: Bytes32, j: Bytes32): Point
    requires w.Valid()
  {
    Times(w.C(), SecretScalar(FromBytesBE(i), FromBytesBE(j), FromBytesBE(sA), FromBytesBE(sB)), G(w))
  }

  lemma ClientPointValue(w: Params, h: Sha256, i: Bytes32, sA: Bytes32, sB: Bytes32, j: Bytes32)
    requires TrustedCurve(w) && FinitePoints(w, h, i, sA, sB)
    ensures ClientPoint(w, h, i, sA, j, WireKey(w, h, PublicKey(w, i).0, sB)) == SharedPoint(w, i, sA, sB, j)
  {
    hide OnCurve, ScalarMulSpec, Vertical, G, Params.FromM, Params.B, FromBytesBE, OddOrder, Associative;
    hide HashToCurve, PublicKey, BlindedKey, WireKey, Unblinded, Lands;
    TrustedGroup(w);
    UnblindingExact(w, h, PublicKey(w, i).0, sB);
    ClientScalars(w.C(), G(w), w.r, FromBytesBE(i), FromBytesBE(j), FromBytesBE(sA), FromBytesBE(sB));
  }

  lemma ServerPointValue(w: Params, h: Sha256, i: Bytes32, sA: Bytes32, sB: Bytes32, j: Bytes32, creds: Credentials)
    requires TrustedCurve(w) && FinitePoints(w, h, i, sA, sB)
    requires (creds.xGamma, creds.gammaParity) == (PublicKey(w, i).0, PublicKey(w, i).1 != 0)
    ensures ServerPoint(w, creds, sB, j, PublicKey(w, sA)) == SharedPoint(w, i, sA, sB, j)
  {
    hide Add, OnCurve, ScalarMulSpec, Vertical, G, Params.FromM, Params.B, FromBytesBE, OddOrder, Associative;
    hide HashToCurve, PublicKey, BlindedKey, Lands;
    TrustedGroup(w);
    KeyOnTheWire(w, sA);
    KeyOnTheWire(w, i);
    ServerScalars(w.C(), G(w), w.r, FromBytesBE(i), FromBytesBE(j), FromBytesBE(sA), FromBytesBE(sB));
  }
}

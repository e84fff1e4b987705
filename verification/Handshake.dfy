/// The four messages of `client_authenticate` and `server_authenticate` in
/// `src/ecsrp5.rs`, and a whole run of the handshake.
module Handshake {
  import opened FieldSqrt
  import opened CurvePoints
  import opened ScalarMul
  import opened ByteStrings
  import opened WeierstrassCurve
  import opened EcSrp5

  type Key = (Bytes32, nat)

  // ---- Framing ----

  /// One length byte, truncated as by `as u8`, and the payload.
  function Frame(payload: seq<byte>): seq<byte> {
    [|payload| % 256] + payload
  }

  /// `read_exact` of the length byte and of that many bytes.
  function ReadFrame(stream: seq<byte>): Outcome<seq<byte>> {
    if stream == [] then Err(UnexpectedEof) else
      var n: nat := stream[0];
      if |stream| < 1 + n then Err(UnexpectedEof) else Ok(stream[1..1 + n])
  }

  lemma FrameRoundTrip(payload: seq<byte>)
    ensures |payload| < 256 ==> ReadFrame(Frame(payload)) == Ok(payload)
    ensures ReadFrame(Frame(payload)) == Ok(payload[..|payload| % 256])
  {
    var f := Frame(payload);
    var n: nat := f[0];
    assert f[1..1 + n] == payload[..|payload| % 256];
    if |payload| < 256 { assert payload[..|payload| % 256] == payload; }
  }

  // ---- MSG1: username, 0, key, parity ----

  function Msg1(username: seq<byte>, keyA: Key): seq<byte>
    requires keyA.1 < 256
  {
    Frame(username + [0] + keyA.0 + [keyA.1])
  }

  lemma Msg1Bytes(username: seq<byte>, keyA: Key)
    requires keyA.1 < 256
    ensures Msg1(username, keyA) == [(|username| + 34) % 256] + username + [0] + keyA.0 + [keyA.1]
  {
    assert |username + [0] + keyA.0 + [keyA.1]| == |username| + 34;
  }

  function FirstZero(s: seq<byte>): (k: nat)
    ensures k <= |s|
    ensures k < |s| ==> s[k] == 0
    ensures forall i :: 0 <= i < k ==> s[i] != 0
  {
    if s == [] || s[0] == 0 then 0 else 1 + FirstZero(s[1..])
  }

  /// The server's reading of MSG1.
  function ParseMsg1(stream: seq<byte>, username: seq<byte>): Outcome<(Bytes32, bool)> {
    var frame := ReadFrame(stream);
    if frame.Err? then Err(frame.error) else
      var data := frame.value;
      var k := FirstZero(data);
      if k == |data| then Err(NoTerminator)
      else if data[..k] != username then Err(AuthFailed)
      else if |data| < k + 1 + 33 then Err(MessageTooShort)
      else Ok((data[k + 1..k + 33], data[k + 33] != 0))
  }

  /// The end of the stream before the announced length.
  lemma CutStream(n: byte, data: seq<byte>, username: seq<byte>)
    requires |data| < n
    ensures ReadFrame([n] + data) == ReadFrame([]) == Err(UnexpectedEof)
    ensures ParseMsg1([n] + data, username) == ParseMsg1([], username) == Err(UnexpectedEof)
    ensures ParseMsg2([n] + data) == ParseMsg2([]) == Err(UnexpectedEof)
  {
    var stream := [n] + data;
    assert stream[0] == n;
  }

  lemma WholeFrame(data: seq<byte>, after: seq<byte>)
    requires |data| < 256
    ensures ReadFrame([|data|] + data + after) == Ok(data)
  {
    var stream := [|data|] + data + after;
    assert stream[0] == |data| && stream[1..1 + |data|] == data;
  }

  /// Everything a whole frame can hold: no terminator, another name, a key that is cut, or
  /// this name and the 33 bytes of the key.
  lemma Msg1Verdict(data: seq<byte>, after: seq<byte>, name: seq<byte>, rest: seq<byte>, username: seq<byte>)
    requires |data| < 256
    ensures var r := ParseMsg1([|data|] + data + after, username);
            && (0 !in data ==> r == Err(NoTerminator))
            && (data == name + [0] + rest && 0 !in name ==>
                  r == if name != username then Err(AuthFailed)
                       else if |rest| < 33 then Err(MessageTooShort)
                       else Ok((rest[..32], rest[32] != 0)))
  {
    WholeFrame(data, after);
    var k := FirstZero(data);
    if data == name + [0] + rest && 0 !in name {
      assert data[|name|] == 0;
      assert forall i :: 0 <= i < |name| ==> data[i] == name[i];
      assert k == |name| && data[..k] == name;
      assert data[k + 1..] == rest;
      assert |rest| >= 33 ==> data[k + 1..k + 33] == rest[..32] && data[k + 33] == rest[32];
    }
  }

  /// No zero byte, and room for terminator, key and parity in one frame.
  predicate NameFits(username: seq<byte>) {
    0 !in username && |username| <= 221
  }

  /// The server reads the key back exactly when the name has no zero byte and leaves room
  /// in one frame; a longer name makes the length byte wrap.
  lemma Msg1Accepted(username: seq<byte>, keyA: Key)
    requires keyA.1 < 256
    ensures ParseMsg1(Msg1(username, keyA), username) == Ok((keyA.0, keyA.1 != 0))
       <==> NameFits(username)
    ensures !NameFits(username) ==> ParseMsg1(Msg1(username, keyA), username).Err?
  {
    var payload := username + [0] + keyA.0 + [keyA.1];
    var n := |payload| % 256;
    FrameRoundTrip(payload);
    var data := payload[..n];
    var k := FirstZero(data);
    if 0 !in username && |username| <= 221 {
      assert data == payload;
      assert payload[|username|] == 0;
      assert k == |username|;
      assert data[..k] == username;
      assert data[k + 1..k + 33] == keyA.0;
    } else if 0 in username {
      var z :| 0 <= z < |username| && username[z] == 0;
      assert payload[z] == 0;
      assert k < |data| ==> k != |username|;
    } else {
      WrappedLength(|username|);
      assert forall i :: 0 <= i < n ==> data[i] == username[i];
      assert k == |data|;
    }
  }

  /// The server's reading of the first message, for the names of the two sides.
  lemma NamesOfBoth(clientName: seq<byte>, serverName: seq<byte>, keyA: Key)
    requires keyA.1 < 256
    ensures var read := ParseMsg1(Msg1(clientName, keyA), serverName);
            && (NameFits(clientName) ==>
                  read == if clientName == serverName then Ok((keyA.0, keyA.1 != 0)) else Err(AuthFailed))
            && (clientName == serverName && !NameFits(clientName) ==> read.Err?)
  {
    hide ParseMsg1;
    Msg1Accepted(clientName, keyA);
    if NameFits(clientName) {
      var rest := keyA.0 + [keyA.1];
      var data := clientName + [0] + rest;
      assert clientName + [0] + keyA.0 + [keyA.1] == data;
      assert Msg1(clientName, keyA) == [|data|] + data + [];
      Msg1Verdict(data, [], clientName, rest, serverName);
    }
  }

  lemma WrappedLength(u: nat)
    requires u >= 222
    ensures (u + 34) % 256 <= u
  {
  }

  // ---- MSG2: key, parity, salt ----

  function Msg2(keyB: Key, salt: Bytes16): seq<byte>
    requires keyB.1 < 256
  {
    Frame(keyB.0 + [keyB.1] + salt)
  }

  lemma Msg2Bytes(keyB: Key, salt: Bytes16)
    requires keyB.1 < 256
    ensures Msg2(keyB, salt) == [49] + keyB.0 + [keyB.1] + salt
  {
    assert |keyB.0 + [keyB.1] + salt| == 49;
  }

  function ParseMsg2(stream: seq<byte>): Outcome<(Bytes32, bool, Bytes16)> {
    var frame := ReadFrame(stream);
    if frame.Err? then Err(frame.error)
    else if |frame.value| < 49 then Err(ChallengeTooShort)
    else Ok((frame.value[..32], frame.value[32] != 0, frame.value[33..49]))
  }

  lemma Msg2Verdict(data: seq<byte>, after: seq<byte>)
    requires |data| < 256
    ensures ParseMsg2([|data|] + data + after)
         == if |data| < 49 then Err(ChallengeTooShort) else Ok((data[..32], data[32] != 0, data[33..49]))
  {
    WholeFrame(data, after);
  }

  lemma Msg2RoundTrip(keyB: Key, salt: Bytes16)
    requires keyB.1 < 256
    ensures ParseMsg2(Msg2(keyB, salt)) == Ok((keyB.0, keyB.1 != 0, salt))
  {
    var payload := keyB.0 + [keyB.1] + salt;
    FrameRoundTrip(payload);
    assert payload[..32] == keyB.0 && payload[33..49] == salt;
  }

  // ---- Confirmation codes ----

  function ClientCode(h: Sha256, j: Bytes32, z: Bytes32): Bytes32 {
    h(j + z)
  }

  function ServerCode(h: Sha256, j: Bytes32, clientCode: seq<byte>, z: Bytes32): Bytes32 {
    h(j + clientCode + z)
  }

  /// What the server accepts as the third message.
  predicate Proves(h: Sha256, j: Bytes32, z: Bytes32, msg3: seq<byte>) {
    ReadFrame(msg3) == Ok(h(j + z))
  }

  /// What the client accepts as the fourth message.
  predicate Replies(h: Sha256, j: Bytes32, z: Bytes32, msg4: seq<byte>) {
    ReadFrame(msg4) == Ok(h(j + h(j + z) + z))
  }

  lemma TwoParts(a: Bytes32, b: Bytes32, a': Bytes32, b': Bytes32)
    ensures a + b == a' + b' <==> a == a' && b == b'
  {
    assert (a + b)[..32] == a && (a + b)[32..] == b;
    assert (a' + b')[..32] == a' && (a' + b')[32..] == b';
  }

  lemma ThreeParts(a: Bytes32, m: seq<byte>, b: Bytes32, a': Bytes32, m': seq<byte>, b': Bytes32)
    ensures a + m + b == a' + m' + b' <==> a == a' && m == m' && b == b'
  {
    var (s, s') := (a + m + b, a' + m' + b');
    assert s[..32] == a && s[32..|s| - 32] == m && s[|s| - 32..] == b;
    assert s'[..32] == a' && s'[32..|s'| - 32] == m' && s'[|s'| - 32..] == b';
  }

  /// A third message made from j' and z' is accepted for j and z exactly if they are the
  /// same, for a hash function that tells the two strings apart.
  lemma ProofAccepted(h: Sha256, j: Bytes32, z: Bytes32, j': Bytes32, z': Bytes32)
    requires Separates(h, j + z, j' + z')
    ensures Proves(h, j, z, Frame(ClientCode(h, j', z'))) <==> j == j' && z == z'
  {
    hide ReadFrame, Frame;
    FrameRoundTrip(ClientCode(h, j', z'));
    TwoParts(j, z, j', z');
  }

  /// The fourth message, for the code c that the server has read.
  lemma ReplyAccepted(h: Sha256, j: Bytes32, z: Bytes32, j': Bytes32, c: seq<byte>, z': Bytes32)
    requires Separates(h, j + h(j + z) + z, j' + c + z')
    ensures Replies(h, j, z, Frame(ServerCode(h, j', c, z'))) <==> j == j' && c == h(j + z) && z == z'
  {
    hide ReadFrame, Frame;
    FrameRoundTrip(ServerCode(h, j', c, z'));
    ThreeParts(j, h(j + z), z, j', c, z');
  }

  lemma ChallengeSeparates(h: Sha256, a: Bytes32, b: Bytes32, a': Bytes32, b': Bytes32)
    requires Separates(h, a + b, a' + b')
    ensures ChallengeHash(h, a, b) == ChallengeHash(h, a', b') <==> a == a' && b == b'
  {
    TwoParts(a, b, a', b');
  }

  /// The hash function that gives `x` one value and everything else another.
  function Singles(x: seq<byte>): Sha256 {
    (y: seq<byte>) => if y == x then Filled(1) else Filled(0)
  }

  lemma SinglesSeparates(x: seq<byte>, y: seq<byte>)
    ensures Separates(Singles(x), x, y)
  {
    assert Filled(1)[0] == 1 && Filled(0)[0] == 0;
  }

  /// So for any other j or z there is a hash function with which the server refuses.
  lemma WrongProofRefused(j: Bytes32, z: Bytes32, j': Bytes32, z': Bytes32)
    requires j != j' || z != z'
    ensures exists h: Sha256 :: !Proves(h, j, z, Frame(ClientCode(h, j', z')))
  {
    var h := Singles(j + z);
    SinglesSeparates(j + z, j' + z');
    ProofAccepted(h, j, z, j', z');
  }

  /// The client refuses likewise.
  lemma WrongReplyRefused(j: Bytes32, z: Bytes32, j': Bytes32, z': Bytes32)
    requires j != j' || z != z'
    ensures exists h: Sha256 :: !Replies(h, j, z, Frame(ServerCode(h, j', ClientCode(h, j, z), z')))
  {
    hide Replies, Frame;
    var h := Singles(j + Filled(0) + z);
    SinglesSeparates(j + Filled(0) + z, j' + Filled(0) + z');
    assert |j + z| == 64 && |j + Filled(0) + z| == 96;
    assert h(j + z) == Filled(0);
    ReplyAccepted(h, j, z, j', h(j + z), z');
    assert !Replies(h, j, z, Frame(ServerCode(h, j', ClientCode(h, j, z), z')));
  }

  /// And the challenge hash depends on both keys.
  lemma ChallengeDepends(a: Bytes32, b: Bytes32, a': Bytes32, b': Bytes32)
    requires a != a' || b != b'
    ensures exists h: Sha256 :: ChallengeHash(h, a, b) != ChallengeHash(h, a', b')
  {
    var h := Singles(a + b);
    SinglesSeparates(a + b, a' + b');
    ChallengeSeparates(h, a, b, a', b');
  }

  // ---- The steps of the two sides ----

  function ParityBit(b: bool): nat {
    if b then 1 else 0
  }

  lemma KeyParityIsBit(w: Params, pt: Point)
    requires w.p > 2
    ensures var k := ToMontgomery(w, pt); k.1 < 256 && (k.0, ParityBit(k.1 != 0)) == k
  {
    hide Params.FromM;
  }

  method ClientStart(w: Params, g: Point, username: seq<byte>, sA: Bytes32) returns (keyA: Key, msg1: seq<byte>)
    requires w.Valid() && g == G(w)
    ensures keyA == PublicKey(w, sA) && keyA.1 < 256 && msg1 == Msg1(username, keyA)
    ensures msg1 == [(|username| + 34) % 256] + username + [0] + keyA.0 + [keyA.1]
  {
    hide G, ScalarMulSpec, ToMontgomery;
    keyA := GenPublicKey(w, g, sA);
    KeyParityIsBit(w, ScalarMulSpec(w.C(), FromBytesBE(sA), G(w)));
    msg1 := Msg1(username, keyA);
    Msg1Bytes(username, keyA);
  }

  /// Server: MSG1 in, MSG2 out, with the challenge hash and the shared z it will check.
  method ServerRespond(w: Params, h: Sha256, g: Point, username: seq<byte>, creds: Credentials, msg1: seq<byte>,
                       sB: Bytes32)
      returns (r: Outcome<(seq<byte>, Bytes32, Bytes32)>)
    requires w.Valid() && SmallShift(w.p) && g == G(w) && Lands(w, h, creds.xGamma)
    ensures ParseMsg1(msg1, username).Err? ==> r == Err(ParseMsg1(msg1, username).error)
    ensures WireKey(w, h, creds.xGamma, sB).1 < 256
    ensures ParseMsg1(msg1, username).Ok? ==>
              var (xWa, parity) := ParseMsg1(msg1, username).value;
              var keyB := WireKey(w, h, creds.xGamma, sB);
              var j := h(xWa + keyB.0);
              var z := ToMontgomery(w, ServerPoint(w, creds, sB, j, (xWa, ParityBit(parity)))).0;
              r == Ok(([49] + keyB.0 + [keyB.1] + creds.salt, j, z))
  {
    hide G, ScalarMulSpec, ToMontgomery, FromBytesBE, Lands, HashToCurve, Add, IsLift, Msg2, ParseMsg1;
    var parsed := ParseMsg1(msg1, username);
    KeyParityIsBit(w, BlindedKey(w, h, creds.xGamma, sB));
    if parsed.Err? { return Err(parsed.error); }
    var (xWa, parity) := parsed.value;

    var pubB := ScalarMul.ScalarMul(w.C(), g, FromBytesBE(sB));
    var blind := Redp1(w, h, creds.xGamma, false);
    var keyB := ToMontgomery(w, Add(w.C(), pubB, blind));
    Msg2Bytes(keyB, creds.salt);
    var j := ChallengeHash(h, xWa, keyB.0);

    var wA := ComputeLift(w, FromBytesBE(xWa), parity);
    LiftIs(w, FromBytesBE(xWa), parity, wA);
    var gamma := ComputeLift(w, FromBytesBE(creds.xGamma), creds.gammaParity);
    LiftIs(w, FromBytesBE(creds.xGamma), creds.gammaParity, gamma);
    var jGamma := ScalarMul.ScalarMul(w.C(), gamma, FromBytesBE(j));
    var zPoint := ScalarMul.ScalarMul(w.C(), Add(w.C(), wA, jGamma), FromBytesBE(sB));
    return Ok((Msg2(keyB, creds.salt), j, ToMontgomery(w, zPoint).0));
  }

  /// Client: MSG2 in, MSG3 out.
  method ClientProve(w: Params, h: Sha256, g: Point, username: seq<byte>, password: seq<byte>, keyA: Key,
                     sA: Bytes32, msg2: seq<byte>)
      returns (r: Outcome<(seq<byte>, Bytes32, Bytes32)>)
    requires w.Valid() && SmallShift(w.p) && w.r > 0 && g == G(w)
    requires ParseMsg2(msg2).Ok? ==>
               Lands(w, h, PublicKey(w, ValidatorPriv(h, username, password, ParseMsg2(msg2).value.2)).0)
    ensures ParseMsg2(msg2).Err? ==> r == Err(ParseMsg2(msg2).error)
    ensures ParseMsg2(msg2).Ok? ==>
              var (xWb, parity, salt) := ParseMsg2(msg2).value;
              var i := h(salt + h(username + [58] + password));
              var j := h(keyA.0 + xWb);
              var z := ToMontgomery(w, ClientPoint(w, h, i, sA, j, (xWb, ParityBit(parity)))).0;
              r == Ok(([32] + h(j + z), j, z))
  {
    hide G, ScalarMulSpec, ToMontgomery, FromBytesBE, Lands, HashToCurve, Add, IsLift, ParseMsg2;
    var parsed := ParseMsg2(msg2);
    if parsed.Err? { return Err(parsed.error); }
    var (xWb, parity, salt) := parsed.value;

    var i := ValidatorPriv(h, username, password, salt);
    var gammaKey := GenPublicKey(w, g, i);
    var v := Redp1(w, h, gammaKey.0, true);
    var wB := ComputeLift(w, FromBytesBE(xWb), parity);
    LiftIs(w, FromBytesBE(xWb), parity, wB);
    var unblinded := Add(w.C(), wB, v);
    var j := ChallengeHash(h, keyA.0, xWb);
    var scalar := (FromBytesBE(i) * FromBytesBE(j) + FromBytesBE(sA)) % w.r;
    var zPoint := ScalarMul.ScalarMul(w.C(), unblinded, scalar);
    var z := ToMontgomery(w, zPoint).0;
    return Ok((Frame(ClientCode(h, j, z)), j, z));
  }

  /// Server: MSG3 in, MSG4 out.
  method ServerVerify(h: Sha256, j: Bytes32, z: Bytes32, msg3: seq<byte>) returns (r: Outcome<seq<byte>>)
    ensures r.Ok? <==> Proves(h, j, z, msg3)
    ensures r.Ok? ==> r.value == [32] + h(j + h(j + z) + z)
    ensures r.Err? ==> r.error == if ReadFrame(msg3).Err? then UnexpectedEof else AuthFailed
  {
    var frame := ReadFrame(msg3);
    if frame.Err? { return Err(frame.error); }
    if frame.value != ClientCode(h, j, z) { return Err(AuthFailed); }
    return Ok(Frame(ServerCode(h, j, frame.value, z)));
  }

  /// Client: MSG4 in.
  method ClientVerify(h: Sha256, j: Bytes32, z: Bytes32, msg4: seq<byte>) returns (r: Outcome<()>)
    ensures r.Ok? <==> Replies(h, j, z, msg4)
    ensures r.Err? ==> r.error == if ReadFrame(msg4).Err? then UnexpectedEof else ConfirmationMismatch
  {
    var frame := ReadFrame(msg4);
    if frame.Err? { return Err(frame.error); }
    if frame.value != ServerCode(h, j, ClientCode(h, j, z), z) { return Err(ConfirmationMismatch); }
    return Ok(());
  }

  // ---- A whole run ----

  /// The two sides read each other's keys and so compute one z, from s_b (s_a + j i) G.
  lemma BothComputeZ(w: Params, h: Sha256, username: seq<byte>, password: seq<byte>, salt: Bytes16, sA: Bytes32,
                     sB: Bytes32)
    requires TrustedCurve(w)
    requires FinitePoints(w, h, ValidatorPriv(h, username, password, salt), sA, sB)
    ensures var i := ValidatorPriv(h, username, password, salt);
            var creds := CredentialsFor(w, h, username, password, salt);
            var keyA, keyB := PublicKey(w, sA), WireKey(w, h, creds.xGamma, sB);
            var j := ChallengeHash(h, keyA.0, keyB.0);
            && (keyA.0, ParityBit(keyA.1 != 0)) == keyA && (keyB.0, ParityBit(keyB.1 != 0)) == keyB
            && i == h(salt + h(username + [58] + password)) && j == h(keyA.0 + keyB.0) && creds.salt == salt
            && ClientPoint(w, h, i, sA, j, keyB) == ServerPoint(w, creds, sB, j, keyA)
            == Times(w.C(), SecretScalar(FromBytesBE(i), FromBytesBE(j), FromBytesBE(sA), FromBytesBE(sB)), G(w))
  {
    hide G, ScalarMulSpec, ToMontgomery, FromBytesBE, Lands, BlindedKey, ClientPoint;
    hide ServerPoint, Multiple, Associative, OddOrder;
    var i := ValidatorPriv(h, username, password, salt);
    var creds := CredentialsFor(w, h, username, password, salt);
    var j := ChallengeHash(h, PublicKey(w, sA).0, WireKey(w, h, creds.xGamma, sB).0);
    KeyParityIsBit(w, ScalarMulSpec(w.C(), FromBytesBE(sA), G(w)));
    KeyParityIsBit(w, BlindedKey(w, h, creds.xGamma, sB));
    ClientPointValue(w, h, i, sA, sB, j);
    ServerPointValue(w, h, i, sA, sB, j, creds);
  }

  lemma ValidatorsOfBoth(h: Sha256, name: seq<byte>, pass: seq<byte>, pass': seq<byte>, salt: Bytes16)
    ensures var u, u' := name + [58] + pass, name + [58] + pass';
            Separates(h, u, u') && Separates(h, salt + h(u), salt + h(u')) ==>
              (h(salt + h(u)) == h(salt + h(u')) <==> pass == pass')
  {
    var u, u' := name + [58] + pass, name + [58] + pass';
    if Separates(h, u, u') && Separates(h, salt + h(u), salt + h(u')) {
      ValidatorSeparates(h, name, pass, salt, name, pass', salt);
    }
  }

  lemma RunSecrets(w: Params, h: Sha256, clientName: seq<byte>, serverName: seq<byte>, clientPassword: seq<byte>,
                   serverPassword: seq<byte>, salt: Bytes16, sA: Bytes32, sB: Bytes32)
      returns (j: Bytes32, zC: Bytes32, zS: Bytes32)
    requires TrustedCurve(w)
    requires FinitePoints(w, h, ValidatorPriv(h, serverName, serverPassword, salt), sA, sB)
    requires Lands(w, h, PublicKey(w, ValidatorPriv(h, clientName, clientPassword, salt)).0)
    ensures var iC := h(salt + h(clientName + [58] + clientPassword));
            var iS := h(salt + h(serverName + [58] + serverPassword));
            var keyA, keyB := PublicKey(w, sA), WireKey(w, h, PublicKey(w, iS).0, sB);
            && (keyA.0, ParityBit(keyA.1 != 0)) == keyA && (keyB.0, ParityBit(keyB.1 != 0)) == keyB
            && j == h(keyA.0 + keyB.0)
            && zC == ToMontgomery(w, ClientPoint(w, h, iC, sA, j, keyB)).0
            && zS == ToMontgomery(w, SharedPoint(w, iS, sA, sB, j)).0
            && var creds := CredentialsFor(w, h, serverName, serverPassword, salt);
               zS == ToMontgomery(w, ServerPoint(w, creds, sB, j, keyA)).0
    ensures clientName == serverName && clientPassword == serverPassword ==> zC == zS
  {
    hide G, ScalarMulSpec, ToMontgomery, FromBytesBE, Lands, BlindedKey, ClientPoint, ServerPoint;
    hide PublicKey, WireKey, Multiple, Associative, OddOrder, HashToCurve, Vertical;
    BothComputeZ(w, h, serverName, serverPassword, salt, sA, sB);
    var iC := h(salt + h(clientName + [58] + clientPassword));
    var iS := h(salt + h(serverName + [58] + serverPassword));
    var keyB := WireKey(w, h, PublicKey(w, iS).0, sB);
    j := h(PublicKey(w, sA).0 + keyB.0);
    zC := ToMontgomery(w, ClientPoint(w, h, iC, sA, j, keyB)).0;
    zS := ToMontgomery(w, SharedPoint(w, iS, sA, sB, j)).0;
  }

  /// With one name, these passwords, salt and secrets lead to two different client codes.
  ghost predicate CodesDiffer(w: Params, h: Sha256, name: seq<byte>, clientPassword: seq<byte>,
                              serverPassword: seq<byte>, salt: Bytes16, sA: Bytes32, sB: Bytes32)
    requires w.Valid() && w.r > 0
  {
    var iC, iS := ValidatorPriv(h, name, clientPassword, salt), ValidatorPriv(h, name, serverPassword, salt);
    && FinitePoints(w, h, iS, sA, sB) && Lands(w, h, PublicKey(w, iC).0)
    && var keyB := WireKey(w, h, PublicKey(w, iS).0, sB);
       var j := h(PublicKey(w, sA).0 + keyB.0);
       var zC := ToMontgomery(w, ClientPoint(w, h, iC, sA, j, keyB)).0;
       var zS := ToMontgomery(w, SharedPoint(w, iS, sA, sB, j)).0;
       h(j + zC) != h(j + zS)
  }

  /// What the two sides make of each other's codes.
  lemma CodesOfBoth(h: Sha256, j: Bytes32, zC: Bytes32, zS: Bytes32)
    ensures ReadFrame([32] + h(j + zC)).Ok?
    ensures Proves(h, j, zS, [32] + h(j + zC)) <==> h(j + zC) == h(j + zS)
    ensures Replies(h, j, zC, [32] + h(j + h(j + zS) + zS)) <==> h(j + h(j + zC) + zC) == h(j + h(j + zS) + zS)
    ensures Separates(h, j + zC, j + zS) ==> (h(j + zC) == h(j + zS) <==> zC == zS)
  {
    WholeFrame(h(j + zC), []);
    WholeFrame(h(j + h(j + zS) + zS), []);
    assert [32] + h(j + zC) + [] == [32] + h(j + zC);
    assert [32] + h(j + h(j + zS) + zS) + [] == [32] + h(j + h(j + zS) + zS);
    TwoParts(j, zC, j, zS);
  }

  /// A run of client and server over a faithful stream, each with its own name and password.
  /// With one name, both accept exactly if the confirmation codes for their two z agree,
  /// which they do for one password. When the name that the server reads is not its own, or
  /// its message is malformed, it refuses and so does the client.
  method Run(w: Params, h: Sha256, clientName: seq<byte>, serverName: seq<byte>, clientPassword: seq<byte>,
             serverPassword: seq<byte>, salt: Bytes16, sA: Bytes32, sB: Bytes32)
      returns (client: Outcome<()>, server: Outcome<()>, ghost j: Bytes32, ghost zC: Bytes32, ghost zS: Bytes32)
    requires TrustedCurve(w) && SmallShift(w.p)
    requires FinitePoints(w, h, ValidatorPriv(h, serverName, serverPassword, salt), sA, sB)
    requires Lands(w, h, PublicKey(w, ValidatorPriv(h, clientName, clientPassword, salt)).0)
    // the challenge hash, and z of either side
    ensures var iC := h(salt + h(clientName + [58] + clientPassword));
            var iS := h(salt + h(serverName + [58] + serverPassword));
            var keyB := WireKey(w, h, PublicKey(w, iS).0, sB);
            && j == h(PublicKey(w, sA).0 + keyB.0)
            && zC == ToMontgomery(w, ClientPoint(w, h, iC, sA, j, keyB)).0
            && zS == ToMontgomery(w, SharedPoint(w, iS, sA, sB, j)).0
    // with one name, the codes decide
    ensures clientName == serverName && NameFits(clientName) ==>
              && (server.Ok? <==> h(j + zC) == h(j + zS)) && (server.Err? ==> server.error == AuthFailed)
              && (client.Ok? <==> server.Ok? && h(j + h(j + zC) + zC) == h(j + h(j + zS) + zS))
    ensures clientName == serverName && NameFits(clientName) && Separates(h, j + zC, j + zS) ==>
              if zC == zS then client.Ok? && server.Ok? else client.Err? && server == Err(AuthFailed)
    ensures clientName == serverName && clientPassword == serverPassword ==> zC == zS
    ensures clientName == serverName && NameFits(clientName)
            && CodesDiffer(w, h, clientName, clientPassword, serverPassword, salt, sA, sB) ==>
              client.Err? && server == Err(AuthFailed)
    ensures var uC, uS := clientName + [58] + clientPassword, serverName + [58] + serverPassword;
            clientName == serverName && Separates(h, uC, uS) && Separates(h, salt + h(uC), salt + h(uS)) ==>
              (h(salt + h(uC)) == h(salt + h(uS)) <==> clientPassword == serverPassword)
    ensures clientName == serverName && !NameFits(clientName) ==> client.Err? && server.Err?
    // with two names
    ensures clientName != serverName && NameFits(clientName) ==> client.Err? && server == Err(AuthFailed)
    ensures PublicKey(w, sA).1 < 256
    ensures var read := ParseMsg1(Msg1(clientName, PublicKey(w, sA)), serverName);
            read.Err? ==> client.Err? && server == Err(read.error)
    ensures client.Ok? ==> server.Ok?
  {
    hide G, ScalarMulSpec, ToMontgomery, FromBytesBE, Lands, BlindedKey, ClientPoint, Separates, Proves, Replies;
    hide ServerPoint, SharedPoint, PublicKey, WireKey, IsLift, Multiple, Msg1, Msg2, ReadFrame, ParseMsg1, ParseMsg2;
    hide Associative, OddOrder, HashToCurve, Vertical, NameFits;
    var g := NewGenerator(w);
    var creds := Derive(w, h, serverName, serverPassword, salt);
    ValidatorsOfBoth(h, clientName, clientPassword, serverPassword, salt);
    ghost var keyB := WireKey(w, h, creds.xGamma, sB);
    j, zC, zS := RunSecrets(w, h, clientName, serverName, clientPassword, serverPassword, salt, sA, sB);
    CodesOfBoth(h, j, zC, zS);
    var keyA, msg1 := ClientStart(w, g, clientName, sA);
    NamesOfBoth(clientName, serverName, keyA);
    var respond := ServerRespond(w, h, g, serverName, creds, msg1, sB);
    if respond.Err? {
      client, server := Err(UnexpectedEof), Err(respond.error);
      return;
    }
    var (msg2, sj, sz) := respond.value;
    Msg2Bytes(keyB, salt);
    Msg2RoundTrip(keyB, salt);
    var prove := ClientProve(w, h, g, clientName, clientPassword, keyA, sA, msg2);
    var (msg3, cj, cz) := prove.value;
    var verify := ServerVerify(h, sj, sz, msg3);
    if verify.Err? {
      client, server := Err(UnexpectedEof), Err(verify.error);
      return;
    }
    client := ClientVerify(h, cj, cz, verify.value);
    server := Ok(());
  }
}

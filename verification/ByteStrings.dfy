/// Big-endian byte strings: `BigUint::to_bytes_be`, `from_bytes_be`, the 32-byte copy in
/// `to_montgomery` and `bigint_to_32bytes` of `src/ecsrp5.rs`.
module ByteStrings {
  import opened ModArith

  type byte = x: int | 0 <= x < 256

  type Bytes32 = s: seq<byte> | |s| == 32 witness seq(32, i => 0)

  function FromBytesBE(s: seq<byte>): nat {
    if s == [] then 0 else 256 * FromBytesBE(s[..|s| - 1]) + s[|s| - 1]
  }

  /// The shortest encoding; zero is one zero byte.
  function ToBytesBE(n: nat): (s: seq<byte>)
    ensures |s| >= 1
  {
    if n < 256 then [n] else ToBytesBE(n / 256) + [n % 256]
  }

  function Zeros(n: nat): (s: seq<byte>)
    ensures |s| == n
  {
    seq(n, i => 0)
  }

  /// The copy in `to_montgomery`: right-aligned, the first 32 bytes if there are more.
  function Pad32(bytes: seq<byte>): Bytes32 {
    if |bytes| < 32 then Zeros(32 - |bytes|) + bytes else bytes[..32]
  }

  /// `bigint_to_32bytes`: right-aligned, the last 32 bytes if there are more.
  function BigintTo32Bytes(n: nat): Bytes32 {
    var bytes := ToBytesBE(n);
    if |bytes| < 32 then Zeros(32 - |bytes|) + bytes else bytes[|bytes| - 32..]
  }

  function Base(k: nat): (r: nat)
    ensures r > 0
  {
    if k == 0 then 1 else 256 * Base(k - 1)
  }

  /// 256^32 = 2^256
  const TWO_TO_256: nat := 0x1_0000000000000000_0000000000000000_0000000000000000_0000000000000000

  lemma Base32()
    ensures Base(32) == TWO_TO_256
  {
    assert Base(8) == 0x1_0000000000000000;
    assert Base(16) == 0x1_0000000000000000_0000000000000000;
    assert Base(24) == 0x1_0000000000000000_0000000000000000_0000000000000000;
  }

  lemma {:induction false} FromTo(n: nat)
    ensures FromBytesBE(ToBytesBE(n)) == n
  {
    var s := ToBytesBE(n);
    if n < 256 {
      assert s[..0] == [];
    } else {
      FromTo(n / 256);
      assert s[..|s| - 1] == ToBytesBE(n / 256);
    }
  }

  lemma {:induction false} LengthBound(n: nat, k: nat)
    requires k >= 1
    ensures |ToBytesBE(n)| <= k <==> n < Base(k)
  {
    if k == 1 {
      assert Base(1) == 256 * Base(0);
    } else if n >= 256 {
      LengthBound(n / 256, k - 1);
    } else {
      assert Base(k - 1) >= 1;
    }
  }

  lemma {:induction false} LeadingZeros(z: nat, s: seq<byte>)
    ensures FromBytesBE(Zeros(z) + s) == FromBytesBE(s)
    decreases |s|, z
  {
    var t := Zeros(z) + s;
    if s != [] {
      LeadingZeros(z, s[..|s| - 1]);
      assert t[..|t| - 1] == Zeros(z) + s[..|s| - 1];
    } else if z > 0 {
      LeadingZeros(z - 1, s);
      assert t[..|t| - 1] == Zeros(z - 1) + s;
    } else {
      assert t == [];
    }
  }

  lemma {:induction false} Range(s: seq<byte>)
    ensures FromBytesBE(s) < Base(|s|)
  {
    if s != [] { Range(s[..|s| - 1]); }
  }

  lemma {:induction false} Injective(s: seq<byte>, t: seq<byte>)
    requires |s| == |t| && FromBytesBE(s) == FromBytesBE(t)
    ensures s == t
  {
    if s != [] {
      var n := |s| - 1;
      Injective(s[..n], t[..n]);
      assert s == s[..n] + [s[n]] && t == t[..n] + [t[n]];
    }
  }

  /// Values below 2^256 survive the fixed-width encoding.
  lemma Pad32RoundTrip(n: nat)
    requires n < TWO_TO_256
    ensures FromBytesBE(Pad32(ToBytesBE(n))) == n
  {
    Base32();
    LengthBound(n, 32);
    FromTo(n);
    var s := ToBytesBE(n);
    if |s| < 32 { LeadingZeros(32 - |s|, s); } else { assert s[..32] == s; }
  }

  /// `bigint_to_32bytes` keeps the value modulo 2^256.
  lemma BigintTo32BytesWraps(n: nat)
    ensures FromBytesBE(BigintTo32Bytes(n)) == n % TWO_TO_256
  {
    Base32();
    var s := ToBytesBE(n);
    FromTo(n);
    LengthBound(n, 32);
    if |s| < 32 {
      LeadingZeros(32 - |s|, s);
      DivModUnique(n, Base(32), 0, n);
    } else {
      var k := |s| - 32;
      SplitValue(s, k);
      Range(s[k..]);
      DivModUnique(n, Base(32), FromBytesBE(s[..k]), FromBytesBE(s[k..]));
    }
  }

  lemma {:induction false} SplitValue(s: seq<byte>, k: nat)
    requires k <= |s|
    ensures FromBytesBE(s) == FromBytesBE(s[..k]) * Base(|s| - k) + FromBytesBE(s[k..])
    decreases |s|
  {
    if k == |s| {
      assert s[..k] == s && s[k..] == [];
    } else {
      var n := |s| - 1;
      SplitValue(s[..n], k);
      assert s[..n][..k] == s[..k] && s[..n][k..] == s[k..][..n - k];
      ScaleUp(FromBytesBE(s[..k]), Base(n - k));
    }
  }

  /// The first byte counts most: b 256^k plus the value of the k bytes after it.
  lemma BigEndian(b: byte, rest: seq<byte>)
    ensures FromBytesBE([b] + rest) == b * Base(|rest|) + FromBytesBE(rest)
  {
    hide FromBytesBE, Base;
    var s := [b] + rest;
    SplitValue(s, 1);
    assert s[..1] == [b] && s[1..] == rest;
    OneByte(b);
  }

  lemma OneByte(b: byte)
    ensures FromBytesBE([b]) == b
  {
    assert [b][..0] == [];
  }

  lemma ScaleUp(u: int, b: int)
    ensures 256 * (u * b) == u * (256 * b)
  {
  }
}

/** Big-endian integers: the fixed-width ECDSA signatures of plugins/jwt/algorithms.go, the
    JWK members of plugins/jwt/jwks.go and their readers in plugins/oidc/jwks.go. */
module FixedWidth {
  import opened Wrappers
  import opened Base64

  type Bytes = seq<byte>

  // ---------------------------------------------------------------- big.Int

  function Abs(n: int): nat {
    if n < 0 then -n else n
  }

  function Pow256(k: nat): (p: nat)
    ensures p > 0
  {
    if k == 0 then 1 else 256 * Pow256(k - 1)
  }

  /** big.Int.SetBytes. */
  function ValueOf(s: Bytes): nat {
    if s == [] then 0 else ValueOf(s[..|s| - 1]) * 256 + s[|s| - 1] as int
  }

  /** big.Int.Bytes of a non-negative integer: no leading zero, nothing at all for zero. */
  function Minimal(n: nat): Bytes {
    if n == 0 then [] else Minimal(n / 256) + [(n % 256) as byte]
  }

  function Zeros(k: nat): (z: Bytes)
    ensures |z| == k && forall i :: 0 <= i < k ==> z[i] == 0
  {
    seq(k, _ => 0)
  }

  /** `n` in exactly `k` bytes. */
  function Fixed(n: nat, k: nat): Bytes
    requires |Minimal(n)| <= k
  {
    Zeros(k - |Minimal(n)|) + Minimal(n)
  }

  lemma {:induction false} ValueOfMinimal(n: nat)
    ensures ValueOf(Minimal(n)) == n
    ensures n > 0 ==> |Minimal(n)| > 0 && Minimal(n)[0] != 0
  {
    if n != 0 {
      ValueOfMinimal(n / 256);
      assert Minimal(n)[..|Minimal(n)| - 1] == Minimal(n / 256);
    }
  }

  lemma {:induction false} LeadingZeros(k: nat, s: Bytes)
    ensures ValueOf(Zeros(k) + s) == ValueOf(s)
    decreases k + |s|
  {
    var whole := Zeros(k) + s;
    if s == [] {
      if k > 0 {
        LeadingZeros(k - 1, []);
        assert whole[..k - 1] == Zeros(k - 1) + [];
      }
    } else {
      LeadingZeros(k, s[..|s| - 1]);
      assert whole[..|whole| - 1] == Zeros(k) + s[..|s| - 1];
    }
  }

  lemma {:induction false} MinimalLength(n: nat, k: nat)
    ensures |Minimal(n)| <= k <==> n < Pow256(k)
  {
    if n > 0 && k > 0 {
      MinimalLength(n / 256, k - 1);
    }
  }

  lemma {:induction false} ValueBelow(s: Bytes)
    ensures ValueOf(s) < Pow256(|s|)
  {
    if s != [] { ValueBelow(s[..|s| - 1]); }
  }

  lemma {:induction false} SameLengthSameValue(s: Bytes, t: Bytes)
    requires |s| == |t| && ValueOf(s) == ValueOf(t)
    ensures s == t
  {
    if s != [] {
      var a, b := s[|s| - 1] as int, t[|t| - 1] as int;
      assert a == ValueOf(s) % 256 && b == ValueOf(t) % 256;
      SameLengthSameValue(s[..|s| - 1], t[..|t| - 1]);
      assert s == s[..|s| - 1] + [s[|s| - 1]] && t == t[..|t| - 1] + [t[|t| - 1]];
    }
  }

  lemma ValueOfFixed(n: nat, k: nat)
    requires n < Pow256(k)
    ensures |Minimal(n)| <= k && |Fixed(n, k)| == k && ValueOf(Fixed(n, k)) == n
  {
    MinimalLength(n, k);
    LeadingZeros(k - |Minimal(n)|, Minimal(n));
    ValueOfMinimal(n);
  }

  lemma FixedOfValue(s: Bytes)
    ensures ValueOf(s) < Pow256(|s|) && |Minimal(ValueOf(s))| <= |s| && Fixed(ValueOf(s), |s|) == s
  {
    ValueBelow(s);
    ValueOfFixed(ValueOf(s), |s|);
    SameLengthSameValue(s, Fixed(ValueOf(s), |s|));
  }

  // ---------------------------------------------------------------- ECDSA signatures

  datatype Algorithm = ES256 | ES384 | ES512 | NotECDSA

  function CurveByteSize(alg: Algorithm): nat {
    match alg
    case ES256 => 32
    case ES384 => 48
    case ES512 => 66
    case NotECDSA => 0
  }

  datatype Error = InvalidAlgorithm | ComponentOverflow | InvalidLength | BadBase64 | UnsupportedKey

  /** What the buffer of a successful encoding holds. */
  function Signature(size: nat, r: int, s: int): Bytes
    requires Abs(r) < Pow256(size) && Abs(s) < Pow256(size)
  {
    MinimalLength(Abs(r), size);
    MinimalLength(Abs(s), size);
    Fixed(Abs(r), size) + Fixed(Abs(s), size)
  }

  /** Fills a zeroed buffer with both components, each aligned to the right of its half. */
  method EncodeECDSASignature(alg: Algorithm, r: int, s: int) returns (res: Result<Bytes, Error>)
    ensures alg == NotECDSA ==> res == Err(InvalidAlgorithm)
    ensures alg != NotECDSA ==>
      (res.Ok? <==> Abs(r) < Pow256(CurveByteSize(alg)) && Abs(s) < Pow256(CurveByteSize(alg)))
    ensures alg != NotECDSA && res.Err? ==> res.error == ComponentOverflow
    ensures res.Ok? ==> res.value == Signature(CurveByteSize(alg), r, s)
  {
    var size := CurveByteSize(alg);
    if size == 0 {
      return Err(InvalidAlgorithm);
    }
    var rBytes, sBytes := Minimal(Abs(r)), Minimal(Abs(s));
    MinimalLength(Abs(r), size);
    MinimalLength(Abs(s), size);
    if |rBytes| > size || |sBytes| > size {
      return Err(ComponentOverflow);
    }
    var sig := new byte[2 * size](_ => 0);
    Copy(sig, size - |rBytes|, rBytes);
    Copy(sig, 2 * size - |sBytes|, sBytes);
    hide Minimal, Pow256, CurveByteSize;
    assert |Fixed(Abs(r), size)| == |Fixed(Abs(s), size)| == size;
    assert forall i :: 0 <= i < size ==> sig[i] == Fixed(Abs(r), size)[i];
    assert forall i :: 0 <= i < size ==> sig[size..][i] == Fixed(Abs(s), size)[i];
    assert sig[..size] == Fixed(Abs(r), size);
    assert sig[size..] == Fixed(Abs(s), size);
    assert sig[..] == sig[..size] + sig[size..];
    return Ok(sig[..]);
  }

  method Copy(dst: array<byte>, at: nat, src: Bytes)
    requires at + |src| <= dst.Length
    modifies dst
    ensures forall i :: 0 <= i < dst.Length ==>
      dst[i] == if at <= i < at + |src| then src[i - at] else old(dst[i])
  {
    forall i | 0 <= i < |src| {
      dst[at + i] := src[i];
    }
  }

  function DecodeECDSASignature(alg: Algorithm, sig: Bytes): Result<(nat, nat), Error> {
    var size := CurveByteSize(alg);
    if size == 0 || |sig| != 2 * size then Err(InvalidLength)
    else Ok((ValueOf(sig[..size]), ValueOf(sig[size..])))
  }

  /** The OIDC verifier's R || S branch, for a curve of the given bit size. */
  function ReadConcatenated(bits: nat, sig: Bytes): Option<(nat, nat)> {
    var size := (bits + 7) / 8;
    if |sig| == 2 * size then Some((ValueOf(sig[..size]), ValueOf(sig[size..]))) else None
  }

  function CurveBits(alg: Algorithm): nat {
    match alg
    case ES256 => 256
    case ES384 => 384
    case ES512 => 521
    case NotECDSA => 0
  }

  /** Decoding returns the magnitudes that were encoded, hence the components themselves
      exactly when neither is negative; the OIDC verifier reads the same pair. */
  lemma SignatureRoundTrip(alg: Algorithm, r: int, s: int)
    requires alg != NotECDSA
    requires Abs(r) < Pow256(CurveByteSize(alg)) && Abs(s) < Pow256(CurveByteSize(alg))
    ensures var sig := Signature(CurveByteSize(alg), r, s);
      && DecodeECDSASignature(alg, sig) == Ok((Abs(r), Abs(s)))
      && (DecodeECDSASignature(alg, sig) == Ok((r, s)) <==> r >= 0 && s >= 0)
      && ReadConcatenated(CurveBits(alg), sig) == Some((Abs(r), Abs(s)))
  {
    var size := CurveByteSize(alg);
    ValueOfFixed(Abs(r), size);
    ValueOfFixed(Abs(s), size);
    var sig := Signature(size, r, s);
    assert sig[..size] == Fixed(Abs(r), size) && sig[size..] == Fixed(Abs(s), size);
  }

  /** Every signature of the right length is the encoding of what it decodes to. */
  lemma SignatureReencodes(alg: Algorithm, sig: Bytes)
    requires alg != NotECDSA && |sig| == 2 * CurveByteSize(alg)
    ensures var size := CurveByteSize(alg);
      var r, s := ValueOf(sig[..size]), ValueOf(sig[size..]);
      && DecodeECDSASignature(alg, sig) == Ok((r, s))
      && r < Pow256(size) && s < Pow256(size) && Signature(size, r, s) == sig
  {
    var size := CurveByteSize(alg);
    FixedOfValue(sig[..size]);
    FixedOfValue(sig[size..]);
    assert sig == sig[..size] + sig[size..];
  }

  // ---------------------------------------------------------------- JWK export

  datatype Curve = P256 | P384 | P521 | OtherCurve

  datatype PublicKey =
    | RSA(n: nat, e: int)  // e is a Go int
    | EC(curve: Curve, x: int, y: int)
    | Ed25519(point: Bytes)
    | OtherKey

  datatype JWK =
    | RSAKey(n: string, e: string)
    | ECKey(crv: string, x: string, y: string)
    | OKPKey(x: string)

  function CurveInfo(c: Curve): Option<(string, nat)> {
    match c
    case P256 => Some(("P-256", 32))
    case P384 => Some(("P-384", 48))
    case P521 => Some(("P-521", 66))
    case OtherCurve => None
  }

  /** Left-pads to `size` bytes; longer input is returned unchanged. */
  method PadBytes(b: Bytes, size: nat) returns (r: Bytes)
    ensures r == Padded(b, size)
  {
    if |b| >= size {
      return b;
    }
    var padded := new byte[size](_ => 0);
    Copy(padded, size - |b|, b);
    r := padded[..];
    assert r[..size - |b|] == Zeros(size - |b|) && r[size - |b|..] == b;
  }

  function Padded(b: Bytes, size: nat): Bytes {
    if |b| >= size then b else Zeros(size - |b|) + b
  }

  function BigIntToBytes(n: int): Bytes {
    var b := Minimal(Abs(n));
    if |b| == 0 then [0] else b
  }

  /** The shortest big-endian form of a 64-bit word, found by dropping leading zero bytes. */
  method Uint64ToBigEndian(v: nat) returns (buf: Bytes)
    requires v < Pow256(8)
    ensures buf == BigIntToBytes(v)
  {
    ValueOfFixed(v, 8);
    buf := Fixed(v, 8);
    while |buf| > 1 && buf[0] == 0
      invariant 1 <= |buf| <= 8 && ValueOf(buf) == v
      decreases |buf|
    {
      assert buf == Zeros(1) + buf[1..];
      LeadingZeros(1, buf[1..]);
      buf := buf[1..];
    }
    StrippedIsMinimal(buf);
  }

  lemma StrippedIsMinimal(s: Bytes)
    requires |s| == 1 || (|s| > 1 && s[0] != 0)
    ensures s == BigIntToBytes(ValueOf(s))
  {
    var n := ValueOf(s);
    FixedOfValue(s);
    ValueOfMinimal(n);
    assert s == Fixed(n, |s|);
  }

  function CoordinateText(v: int, size: nat): string {
    Encode(Url, Padded(Minimal(Abs(v)), size))
  }

  function KeyToJWK(symmetric: bool, k: PublicKey): Result<JWK, Error> {
    if symmetric then Err(UnsupportedKey)
    else match k
      case RSA(n, e) => Ok(RSAKey(Encode(Url, Minimal(n)), Encode(Url, BigIntToBytes(e))))
      case EC(c, x, y) =>
        (match CurveInfo(c)
         case None => Err(UnsupportedKey)
         case Some((name, size)) =>
           Ok(ECKey(name, CoordinateText(x, size), CoordinateText(y, size))))
      case Ed25519(point) => Ok(OKPKey(Encode(Url, point)))
      case OtherKey => Err(UnsupportedKey)
  }

  // ---------------------------------------------------------------- the sizes of the curves

  lemma {:induction false} PowerGrows(a: nat, b: nat)
    requires a <= b
    ensures Pow256(a) <= Pow256(b)
    decreases b
  {
    if a < b {
      PowerGrows(a, b - 1);
    }
  }

  /** The order of the field of each curve (FIPS 186-4, appendix D.1.2), in powers of 256. */
  function FieldPrime(c: Curve): int {
    match c
    case P256 => Pow256(32) - Pow256(28) + Pow256(24) + Pow256(12) - 1
    case P384 => Pow256(48) - Pow256(16) - Pow256(12) + Pow256(4) - 1
    case P521 => 2 * Pow256(65) - 1
    case OtherCurve => 0
  }

  /** RFC 7518, section 6.2.1: a coordinate has as many bytes as the order of the field needs. */
  lemma CoordinatesHaveFieldSize(c: Curve)
    ensures CurveInfo(c).Some? <==> c != OtherCurve
    ensures c != OtherCurve ==> var size := CurveInfo(c).value.1;
      size > 0 && Pow256(size - 1) < FieldPrime(c) <= Pow256(size)
    ensures CurveInfo(P256).value.0 == "P-256" && CurveInfo(P384).value.0 == "P-384"
    ensures CurveInfo(P521).value.0 == "P-521"
  {
    hide Pow256;
    PowerStep(31);
    PowerGrows(28, 31);
    PowerGrows(24, 28);
    PowerGrows(12, 24);
    PowerStep(27);
    PowerGrows(24, 27);
    PowerStep(47);
    PowerStep(46);
    PowerGrows(16, 46);
    PowerGrows(12, 16);
    PowerGrows(4, 12);
    PowerStep(65);
    PowerOfZero();
    PowerGrows(0, 4);
    PowerStep(64);
    PowerGrows(0, 64);
  }

  lemma PowerStep(k: nat)
    ensures Pow256(k + 1) == 256 * Pow256(k)
  {
  }

  lemma PowerOfZero()
    ensures Pow256(0) == 1
  {
  }

  /** RFC 7518, section 3.4: each algorithm has the halves of its own curve. */
  lemma SignaturesHaveFieldSize(alg: Algorithm)
    ensures CurveByteSize(alg) == match alg
      case ES256 => CurveInfo(P256).value.1
      case ES384 => CurveInfo(P384).value.1
      case ES512 => CurveInfo(P521).value.1
      case NotECDSA => 0
    ensures CurveByteSize(alg) == (CurveBits(alg) + 7) / 8
    ensures alg != NotECDSA ==> CurveBits(alg) in {256, 384, 521}
  {
  }

  /** Big-endian notation: raising one byte raises the value by its place. */
  lemma {:induction false} PlaceValue(s: Bytes, i: nat, b: byte)
    requires i < |s|
    ensures ValueOf(s[i := b]) == ValueOf(s) + (b as int - s[i] as int) * Pow256(|s| - 1 - i)
  {
    var n := |s| - 1;
    var t := s[i := b];
    if i == n {
      assert t[..n] == s[..n] && Pow256(0) == 1;
    } else {
      PlaceValue(s[..n], i, b);
      assert t[..n] == s[..n][i := b];
      var (d, p) := (b as int - s[i] as int, Pow256(n - 1 - i));
      assert Pow256(n - i) == 256 * p;
      assert d * (256 * p) == 256 * (d * p);
    }
  }

  /** RFC 7515, appendix C: what an exported key holds is printed in the URL-safe alphabet. */
  lemma {:induction false} SpelledUrlSafe(d: seq<Digit>)
    ensures forall c :: c in Spell(Url, d) ==> c in Table(Url)
  {
    if d != [] {
      LettersOfTheTable(Url, d[0]);
      SpelledUrlSafe(d[1..]);
    }
  }

  predicate UrlSafe(text: string) {
    forall c :: c in text ==> c in Table(Url)
  }

  lemma ExportsAreUrlSafe(k: PublicKey)
    requires KeyToJWK(false, k).Ok?
    ensures match KeyToJWK(false, k).value
      case RSAKey(n, e) => UrlSafe(n) && UrlSafe(e)
      case ECKey(_, x, y) => UrlSafe(x) && UrlSafe(y)
      case OKPKey(x) => UrlSafe(x)
  {
    hide Spell, Table, ToDigits;
    match k
    case RSA(n, e) =>
      SpelledUrlSafe(ToDigits(Minimal(n)));
      SpelledUrlSafe(ToDigits(BigIntToBytes(e)));
    case EC(c, x, y) =>
      if c != OtherCurve {
        SpelledUrlSafe(ToDigits(Padded(Minimal(Abs(x)), CurveInfo(c).value.1)));
        SpelledUrlSafe(ToDigits(Padded(Minimal(Abs(y)), CurveInfo(c).value.1)));
      }
    case Ed25519(point) => SpelledUrlSafe(ToDigits(point));
    case OtherKey =>
  }

  /** RFC 8037, section 2: the point of an Edwards curve key is exported as it is. */
  lemma PointIsExported(point: Bytes)
    ensures var r := KeyToJWK(false, Ed25519(point));
      r.Ok? && r.value.OKPKey? && Decode(Url, r.value.x) == Some(point)
  {
    RoundTrip(Url, point);
  }

  // ---------------------------------------------------------------- JWK import

  const HALF: int := 0x8000_0000_0000_0000

  /** Two's complement wrap-around of a 64-bit int. */
  function Wrap(x: int): (w: int)
    ensures -HALF <= w < HALF
    ensures -HALF <= x < HALF ==> w == x
  {
    (x + HALF) % (2 * HALF) - HALF
  }

  /** e << 8 | b. */
  function ShiftIn(e: int, b: byte): int {
    Wrap(e * 256) + b as int
  }

  lemma WrapMod(x: int, k: int)
    ensures Wrap(x + k * (2 * HALF)) == Wrap(x)
  {
  }

  lemma WrapQuotient(x: int) returns (k: int)
    ensures Wrap(x) == x + k * (2 * HALF)
  {
    k := -((x + HALF) / (2 * HALF));
  }

  lemma ShiftInWraps(x: int, b: byte)
    ensures ShiftIn(Wrap(x), b) == Wrap(x * 256 + b as int)
  {
    var k := WrapQuotient(x);
    WrapMod(x * 256, k * 256);
    assert Wrap(x) * 256 == x * 256 + (k * 256) * (2 * HALF);
    var j := WrapQuotient(x * 256);
    var w := Wrap(x * 256);
    assert w % 256 == 0;
    assert w + b as int < HALF;
    WrapMod(x * 256 + b as int, j);
    assert w + b as int == x * 256 + b as int + j * (2 * HALF);
  }

  /** Accumulates the exponent byte by byte in a 64-bit int. */
  method ParseRSAPublicKey(n: string, e: string) returns (r: Option<PublicKey>)
    ensures r == RSAOf(n, e)
  {
    var nBytes := Decode(Url, n);
    if nBytes.None? { return None; }
    var eBytes := Decode(Url, e);
    if eBytes.None? { return None; }
    var exponent: int := 0;
    var b := eBytes.value;
    for i := 0 to |b|
      invariant exponent == Wrap(ValueOf(b[..i]))
    {
      ShiftInWraps(ValueOf(b[..i]), b[i]);
      assert b[..i + 1][..i] == b[..i];
      exponent := ShiftIn(exponent, b[i]);
    }
    assert b[..|b|] == b;
    return Some(RSA(ValueOf(nBytes.value), exponent));
  }

  function RSAOf(n: string, e: string): Option<PublicKey> {
    match (Decode(Url, n), Decode(Url, e))
    case (Some(nb), Some(eb)) => Some(RSA(ValueOf(nb), Wrap(ValueOf(eb))))
    case _ => None
  }

  function CurveNamed(crv: string): Curve {
    if crv == "P-256" then P256 else if crv == "P-384" then P384 else if crv == "P-521" then P521 else OtherCurve
  }

  function ParseECPublicKey(crv: string, x: string, y: string): Option<PublicKey> {
    var curve := CurveNamed(crv);
    if curve == OtherCurve then None
    else match (Decode(Url, x), Decode(Url, y))
      case (Some(xb), Some(yb)) => Some(EC(curve, ValueOf(xb), ValueOf(yb)))
      case _ => None
  }

  /** An elliptic curve key is read exactly from the three curves and two base64url members, each
      coordinate from its own. */
  lemma ECParsedExactlyWhen(crv: string, x: string, y: string)
    ensures var r := ParseECPublicKey(crv, x, y);
      && (r.Some? <==> crv in {"P-256", "P-384", "P-521"} && Decode(Url, x).Some? && Decode(Url, y).Some?)
      && (r.Some? ==>
          && r.value.EC? && r.value.x == ValueOf(Decode(Url, x).value) && r.value.y == ValueOf(Decode(Url, y).value)
          && (r.value.curve == P256 <==> crv == "P-256") && (r.value.curve == P384 <==> crv == "P-384")
          && (r.value.curve == P521 <==> crv == "P-521"))
  {
    assert "P-384"[2] == '3' && "P-521"[2] == '5' && "P-256"[2] == '2';
    hide Decode, ValueOf;
  }

  /** An RSA key is read exactly from two base64url members. */
  lemma RSAParsedExactlyWhen(n: string, e: string)
    ensures RSAOf(n, e).Some? <==> Decode(Url, n).Some? && Decode(Url, e).Some?
    ensures RSAOf(n, e).Some? ==>
      && RSAOf(n, e).value.RSA? && RSAOf(n, e).value.n == ValueOf(Decode(Url, n).value)
      && (ValueOf(Decode(Url, e).value) < HALF ==> RSAOf(n, e).value.e == ValueOf(Decode(Url, e).value))
  {
  }

  /** The key an importer reads from an exported JWK. */
  function Import(j: JWK): Option<PublicKey> {
    match j
    case RSAKey(n, e) => RSAOf(n, e)
    case ECKey(crv, x, y) => ParseECPublicKey(crv, x, y)
    case OKPKey(_) => None
  }

  // ---------------------------------------------------------------- export then import

  /** The importer recovers an RSA key exactly when its exponent is not negative or is the
      least 64-bit integer, whose magnitude wraps around to itself. */
  lemma RSARoundTrip(n: nat, e: int)
    requires -HALF <= e < HALF
    ensures Import(KeyToJWK(false, RSA(n, e)).value) == Some(RSA(n, Wrap(Abs(e))))
    ensures Import(KeyToJWK(false, RSA(n, e)).value) == Some(RSA(n, e)) <==> e >= 0 || e == -HALF
  {
    assert ValueOf([0]) == 0 by { assert [0 as byte][..0] == []; }
    assert Wrap(HALF) == -HALF;
    hide Encode, Decode, Minimal, ValueOf;
    RoundTrip(Url, Minimal(n));
    RoundTrip(Url, BigIntToBytes(e));
    ValueOfMinimal(n);
    ValueOfMinimal(Abs(e));
  }

  lemma PaddedValue(n: nat, size: nat)
    ensures ValueOf(Padded(Minimal(n), size)) == n
    ensures |Padded(Minimal(n), size)| == size <==> n < Pow256(size)
  {
    MinimalLength(n, size);
    ValueOfMinimal(n);
    if |Minimal(n)| < size {
      LeadingZeros(size - |Minimal(n)|, Minimal(n));
    }
  }

  /** An exported coordinate decodes to its magnitude, at the full width that section 6.2.1.2
      of RFC 7518 asks for exactly when it is below 256^size. */
  lemma CoordinateRoundTrip(v: int, size: nat)
    ensures Decode(Url, CoordinateText(v, size)).Some?
    ensures ValueOf(Decode(Url, CoordinateText(v, size)).value) == Abs(v)
    ensures |Decode(Url, CoordinateText(v, size)).value| == size <==> Abs(v) < Pow256(size)
  {
    PaddedValue(Abs(v), size);
    RoundTrip(Url, Padded(Minimal(Abs(v)), size));
  }

  lemma CurveNameRoundTrip(c: Curve)
    requires c != OtherCurve
    ensures CurveNamed(CurveInfo(c).value.0) == c
  {
    assert "P-384"[2] == '3' && "P-521"[2] == '5' && "P-256"[2] == '2';
  }

  lemma ECImport(c: Curve, x: int, y: int) returns (j: JWK)
    requires c != OtherCurve
    ensures KeyToJWK(false, EC(c, x, y)) == Ok(j) && Import(j) == Some(EC(c, Abs(x), Abs(y)))
  {
    var (name, size) := CurveInfo(c).value;
    CurveNameRoundTrip(c);
    CoordinateRoundTrip(x, size);
    CoordinateRoundTrip(y, size);
    j := ECKey(name, CoordinateText(x, size), CoordinateText(y, size));
    assert Import(j) == ParseECPublicKey(name, j.x, j.y);
  }

  /** The importer recovers an elliptic curve key exactly when no coordinate is negative. */
  lemma ECRoundTrip(c: Curve, x: int, y: int)
    requires c != OtherCurve
    ensures KeyToJWK(false, EC(c, x, y)).Ok?
    ensures Import(KeyToJWK(false, EC(c, x, y)).value) == Some(EC(c, x, y)) <==> x >= 0 && y >= 0
  {
    var j := ECImport(c, x, y);
  }

  /** Symmetric keys and unknown curves are never exported. */
  lemma NeverExported(k: PublicKey)
    ensures KeyToJWK(true, k).Err?
    ensures KeyToJWK(false, k).Ok? <==> !k.OtherKey? && !(k.EC? && k.curve == OtherCurve)
  {
  }
}

/** The Argon2id hasher of password/password.go: PHC strings printed by Hash, read by Verify. */
module Password {
  import opened Wrappers
  import opened Base64
  import opened Decimal

  const VERSION := 19

  /** Memory and iterations are 32-bit, parallelism is 8-bit. */
  datatype Params = Params(memory: nat, iterations: nat, parallelism: nat, saltLength: nat, keyLength: nat) {
    predicate InRange() {
      && memory < 0x1_0000_0000 && iterations < 0x1_0000_0000 && parallelism < 0x100
      && saltLength < 0x1_0000_0000 && keyLength < 0x1_0000_0000
    }

    /** argon2.IDKey panics on fewer than one round or one lane. */
    predicate Runnable() {
      iterations > 0 && parallelism > 0
    }
  }

  const DEFAULT := Params(19 * 1024, 2, 1, 16, 32)

  type Bytes = seq<byte>

  /** argon2.IDKey: password, salt, iterations, memory, parallelism, key length. */
  type KDF = (Bytes, Bytes, nat, nat, nat, nat) -> Bytes

  datatype Error = InvalidHash | IncompatibleVersion

  datatype Verdict = Match | Mismatch | Malformed(error: Error) | Panic

  /** Zero fields fall back to the defaults. */
  function NewArgon2id(p: Params): (r: Params)
    requires p.InRange()
    ensures r.InRange() && r.Runnable() && r.keyLength > 0 && r.saltLength > 0
    ensures p.iterations > 0 && p.parallelism > 0 && p.memory > 0 && p.saltLength > 0 && p.keyLength > 0 ==> r == p
    ensures r.memory == (if p.memory == 0 then 19456 else p.memory)
    ensures r.iterations == (if p.iterations == 0 then 2 else p.iterations)
    ensures r.parallelism == (if p.parallelism == 0 then 1 else p.parallelism)
    ensures r.saltLength == (if p.saltLength == 0 then 16 else p.saltLength)
    ensures r.keyLength == (if p.keyLength == 0 then 32 else p.keyLength)
  {
    Params(
      if p.memory == 0 then DEFAULT.memory else p.memory,
      if p.iterations == 0 then DEFAULT.iterations else p.iterations,
      if p.parallelism == 0 then DEFAULT.parallelism else p.parallelism,
      if p.saltLength == 0 then DEFAULT.saltLength else p.saltLength,
      if p.keyLength == 0 then DEFAULT.keyLength else p.keyLength)
  }

  function ParamText(p: Params): string {
    "m=" + Format(p.memory) + ",t=" + Format(p.iterations) + ",p=" + Format(p.parallelism)
  }

  function Print(p: Params, salt: Bytes, key: Bytes): string {
    "$argon2id$v=" + Format(VERSION) + "$" + ParamText(p) + "$" + Encode(Std, salt) + "$" + Encode(Std, key)
  }

  function Hash(p: Params, kdf: KDF, password: Bytes, salt: Bytes): string {
    Print(p, salt, kdf(password, salt, p.iterations, p.memory, p.parallelism, p.keyLength))
  }

  /** strings.Split(s, "$"). */
  function Split(s: string): (parts: seq<string>)
    ensures |parts| > 0
  {
    if s == "" then [""]
    else
      var rest := Split(s[1..]);
      if s[0] == '$' then [""] + rest else [[s[0]] + rest[0]] + rest[1..]
  }

  function Expect(lit: string, s: string): Option<string> {
    if lit <= s then Some(s[|lit|..]) else None
  }

  /** One "name=%d" group of a scan format. */
  function ScanField(lit: string, s: string, limit: nat): Option<(nat, string)> {
    match Expect(lit, s)
    case None => None
    case Some(t) => ScanUnsigned(t, limit)
  }

  /** Sscanf(s, "m=%d,t=%d,p=%d"): input after the last number is not looked at. */
  function ScanParams(s: string): Option<(nat, nat, nat)> {
    match ScanField("m=", s, 0x1_0000_0000)
    case None => None
    case Some((m, s1)) =>
      match ScanField(",t=", s1, 0x1_0000_0000)
      case None => None
      case Some((t, s2)) =>
        match ScanField(",p=", s2, 0x100)
        case None => None
        case Some((p, _)) => Some((m, t, p))
  }

  function ScanVersion(s: string): Option<int> {
    match Expect("v=", s)
    case None => None
    case Some(t) =>
      match ScanSigned(t)
      case None => None
      case Some((v, _)) => Some(v)
  }

  datatype Decoded = Decoded(memory: nat, iterations: nat, parallelism: nat, salt: Bytes, key: Bytes)

  function DecodeHash(encoded: string): (r: Result<Decoded, Error>)
    ensures r.Ok? ==> |r.value.key| > 0 && r.value.memory < 0x1_0000_0000
    ensures r.Ok? ==> r.value.iterations < 0x1_0000_0000 && r.value.parallelism < 0x100
  {
    var parts := Split(encoded);
    if |parts| != 6 || parts[1] != "argon2id" then Err(InvalidHash)
    else match ScanVersion(parts[2])
      case None => Err(InvalidHash)
      case Some(version) =>
        if version != VERSION then Err(IncompatibleVersion)
        else match ScanParams(parts[3])
          case None => Err(InvalidHash)
          case Some((m, t, p)) =>
            match (Decode(Std, parts[4]), Decode(Std, parts[5]))
            case (Some(salt), Some(key)) =>
              if |key| == 0 then Err(InvalidHash) else Ok(Decoded(m, t, p, salt, key))
            case _ => Err(InvalidHash)
  }

  /** The receiver's own parameters play no part in verification. */
  function Verify(own: Params, kdf: KDF, encoded: string, password: Bytes): Verdict {
    match DecodeHash(encoded)
    case Err(e) => Malformed(e)
    case Ok(d) =>
      if d.iterations == 0 || d.parallelism == 0 then Panic
      else if kdf(password, d.salt, d.iterations, d.memory, d.parallelism, |d.key|) == d.key then Match
      else Mismatch
  }

  // ---------------------------------------------------------------- splitting what was joined

  function Join(parts: seq<string>): string
    requires |parts| > 0
  {
    if |parts| == 1 then parts[0] else parts[0] + "$" + Join(parts[1..])
  }

  lemma {:induction false} SplitPlain(s: string)
    requires '$' !in s
    ensures Split(s) == [s]
  {
    if s != "" {
      SplitPlain(s[1..]);
      assert [s[0]] + s[1..] == s;
    }
  }

  lemma {:induction false} SplitFirst(s: string, rest: string)
    requires '$' !in s
    ensures Split(s + "$" + rest) == [s] + Split(rest)
  {
    var whole := s + "$" + rest;
    if s == "" {
      assert whole[1..] == rest;
    } else {
      SplitFirst(s[1..], rest);
      assert whole[1..] == s[1..] + "$" + rest;
      assert [s[0]] + s[1..] == s;
    }
  }

  lemma {:induction false} SplitJoin(parts: seq<string>)
    requires |parts| > 0 && forall i :: 0 <= i < |parts| ==> '$' !in parts[i]
    ensures Split(Join(parts)) == parts
  {
    if |parts| == 1 {
      SplitPlain(parts[0]);
    } else {
      SplitJoin(parts[1..]);
      SplitFirst(parts[0], Join(parts[1..]));
      assert [parts[0]] + parts[1..] == parts;
    }
  }

  lemma {:induction false} JoinSplit(s: string)
    ensures Join(Split(s)) == s && forall i :: 0 <= i < |Split(s)| ==> '$' !in Split(s)[i]
  {
    if s != "" {
      JoinSplit(s[1..]);
      var rest := Split(s[1..]);
      if s[0] == '$' {
        assert Split(s)[1..] == rest;
      } else {
        JoinedLetter(s[0], rest);
        assert Split(s) == [[s[0]] + rest[0]] + rest[1..];
      }
      assert s == [s[0]] + s[1..];
    }
  }

  lemma JoinCons(first: string, rest: seq<string>)
    ensures Join([first] + rest) == if rest == [] then first else first + "$" + Join(rest)
  {
    assert ([first] + rest)[1..] == rest;
  }

  lemma JoinedLetter(c: char, parts: seq<string>)
    requires |parts| > 0
    ensures Join([[c] + parts[0]] + parts[1..]) == [c] + Join(parts)
  {
    hide Join;
    assert parts == [parts[0]] + parts[1..];
    JoinCons([c] + parts[0], parts[1..]);
    JoinCons(parts[0], parts[1..]);
    if |parts| > 1 {
      AppendTwice([c], parts[0], "$", Join(parts[1..]));
    }
  }

  lemma AppendTwice(a: string, b: string, c: string, d: string)
    ensures a + b + c + d == a + (b + c + d)
  {
  }

  // ---------------------------------------------------------------- the printed segments

  lemma FormatHasNoDollar(n: nat)
    ensures '$' !in Format(n)
  {
    FormatDigits(n);
  }

  lemma EncodeHasNoDollar(s: Bytes)
    ensures '$' !in Encode(Std, s)
  {
    ReadSpell(Std, ToDigits(s));
    assert DigitOf(Std, '$').None?;
  }

  /** The six segments, with text before the first separator and after the parameters. */
  function Segments(before: string, p: Params, after: string, salt: Bytes, key: Bytes): seq<string> {
    [before, "argon2id", "v=" + Format(VERSION), ParamText(p) + after, Encode(Std, salt), Encode(Std, key)]
  }

  lemma JoinSix(a: string, b: string, c: string, d: string, e: string, f: string)
    ensures Join([a, b, c, d, e, f]) == a + "$" + (b + "$" + (c + "$" + (d + "$" + (e + "$" + f))))
  {
    assert Join([e, f]) == e + "$" + f by { assert [e, f][1..] == [f]; }
    assert Join([d, e, f]) == d + "$" + Join([e, f]) by { assert [d, e, f][1..] == [e, f]; }
    assert Join([c, d, e, f]) == c + "$" + Join([d, e, f]) by { assert [c, d, e, f][1..] == [d, e, f]; }
    assert Join([b, c, d, e, f]) == b + "$" + Join([c, d, e, f]) by {
      assert [b, c, d, e, f][1..] == [c, d, e, f];
    }
    assert [a, b, c, d, e, f][1..] == [b, c, d, e, f];
  }

  lemma PrintedShape(v: string, text: string, salt: string, key: string)
    ensures "$argon2id$v=" + v + "$" + text + "$" + salt + "$" + key
      == "" + "$" + ("argon2id" + "$" + (("v=" + v) + "$" + (text + "$" + (salt + "$" + key))))
  {
  }

  lemma PrintIsJoined(p: Params, salt: Bytes, key: Bytes)
    ensures Print(p, salt, key) == Join(Segments("", p, "", salt, key))
  {
    var v, text, s, k := Format(VERSION), ParamText(p), Encode(Std, salt), Encode(Std, key);
    PrintedShape(v, text, s, k);
    assert text + "" == text;
    JoinSix("", "argon2id", "v=" + v, text, s, k);
  }

  lemma SegmentsSplit(before: string, p: Params, after: string, salt: Bytes, key: Bytes)
    requires '$' !in before && '$' !in after
    ensures Split(Join(Segments(before, p, after, salt, key))) == Segments(before, p, after, salt, key)
  {
    FormatHasNoDollar(VERSION);
    FormatHasNoDollar(p.memory);
    FormatHasNoDollar(p.iterations);
    FormatHasNoDollar(p.parallelism);
    EncodeHasNoDollar(salt);
    EncodeHasNoDollar(key);
    SplitJoin(Segments(before, p, after, salt, key));
  }

  lemma ScanFieldFormat(lit: string, n: nat, rest: string, limit: nat)
    requires n < limit && (rest == "" || !IsDigit(rest[0]))
    ensures ScanField(lit, lit + Format(n) + rest, limit) == Some((n, rest))
  {
    ScanFormat(n, rest, limit);
    assert (lit + Format(n) + rest)[|lit|..] == Format(n) + rest;
  }

  lemma ScanParamText(p: Params, after: string)
    requires p.InRange() && (after == "" || !IsDigit(after[0]))
    ensures ScanParams(ParamText(p) + after) == Some((p.memory, p.iterations, p.parallelism))
  {
    var s2 := ",p=" + Format(p.parallelism) + after;
    var s1 := ",t=" + Format(p.iterations) + s2;
    assert ParamText(p) + after == "m=" + Format(p.memory) + s1;
    ScanFieldFormat("m=", p.memory, s1, 0x1_0000_0000);
    ScanFieldFormat(",t=", p.iterations, s2, 0x1_0000_0000);
    ScanFieldFormat(",p=", p.parallelism, after, 0x100);
  }

  lemma ScanVersionText()
    ensures ScanVersion("v=" + Format(VERSION)) == Some(VERSION)
  {
    ScanFormat(VERSION, "", 0);
    assert ("v=" + Format(VERSION))[2..] == Format(VERSION) + "";
  }

  // ---------------------------------------------------------------- main results

  /** Decoding is more lenient than printing: text before the first separator and after the
      last parameter is ignored. */
  lemma DecodeIgnoresDecoration(before: string, p: Params, after: string, salt: Bytes, key: Bytes)
    requires p.InRange() && '$' !in before && '$' !in after && (after == "" || !IsDigit(after[0]))
    ensures DecodeHash(Join(Segments(before, p, after, salt, key))) ==
      if key == [] then Err(InvalidHash)
      else Ok(Decoded(p.memory, p.iterations, p.parallelism, salt, key))
  {
    hide Split, Join, ParamText, ScanVersion, ScanParams, Encode, Decode, Format;
    SegmentsSplit(before, p, after, salt, key);
    ScanVersionText();
    ScanParamText(p, after);
    RoundTrip(Std, salt);
    RoundTrip(Std, key);
  }

  /** What was printed is decoded to the same parameters, salt and key. */
  lemma DecodePrint(p: Params, salt: Bytes, key: Bytes)
    requires p.InRange()
    ensures DecodeHash(Print(p, salt, key)) ==
      if key == [] then Err(InvalidHash)
      else Ok(Decoded(p.memory, p.iterations, p.parallelism, salt, key))
  {
    PrintIsJoined(p, salt, key);
    DecodeIgnoresDecoration("", p, "", salt, key);
  }

  /** Six segments between dollar signs: anything, the algorithm, its version, the parameters,
      the salt and the key. */
  predicate SplitsInto(encoded: string, parts: seq<string>) {
    |parts| == 6 && Join(parts) == encoded && (forall i :: 0 <= i < 6 ==> '$' !in parts[i]) && parts[1] == "argon2id"
  }

  lemma SplitsExactly(encoded: string, parts: seq<string>)
    ensures SplitsInto(encoded, parts) <==> Split(encoded) == parts && |parts| == 6 && parts[1] == "argon2id"
  {
    JoinSplit(encoded);
    if SplitsInto(encoded, parts) {
      SplitJoin(parts);
    }
  }

  /** Exactly such strings of version 19, with parameters that fit, are decoded. */
  lemma DecodedExactlyWhen(encoded: string, d: Decoded)
    ensures DecodeHash(encoded) == Ok(d) <==>
      exists parts :: SplitsInto(encoded, parts)
        && ScanVersion(parts[2]) == Some(19) && ScanParams(parts[3]) == Some((d.memory, d.iterations, d.parallelism))
        && Decode(Std, parts[4]) == Some(d.salt) && Decode(Std, parts[5]) == Some(d.key) && d.key != []
    ensures DecodeHash(encoded) == Err(IncompatibleVersion) <==>
      exists parts :: SplitsInto(encoded, parts) && ScanVersion(parts[2]).Some? && ScanVersion(parts[2]) != Some(19)
  {
    hide Split, Join, ScanVersion, ScanParams, Decode;
    SplitsExactly(encoded, Split(encoded));
    forall parts | SplitsInto(encoded, parts) ensures parts == Split(encoded) {
      SplitsExactly(encoded, parts);
    }
    hide SplitsInto;
  }

  lemma DefaultNumbers()
    ensures Format(19) == "19" && Format(19456) == "19456" && Format(2) == "2" && Format(1) == "1"
  {
    FormatExactly(1);
    FormatExactly(19);
    FormatExactly(194);
    FormatExactly(1945);
    FormatExactly(19456);
    assert Format(1) == "1" && Format(19) == "19" && Format(194) == "194" && Format(1945) == "1945";
  }

  /** The string is the one the documentation shows, with a hasher without parameters. */
  lemma PrintedByDefault(kdf: KDF, password: Bytes, salt: Bytes)
    ensures "$argon2id$v=19$m=19456,t=2,p=1$" <= Hash(NewArgon2id(Params(0, 0, 0, 0, 0)), kdf, password, salt)
  {
    DefaultNumbers();
    hide Format;
    var p := NewArgon2id(Params(0, 0, 0, 0, 0));
    var key := kdf(password, salt, 2, 19456, 1, 32);
    PrintedInFull(p, salt, key);
    var start := "$argon2id$v=" + "19" + "$m=" + "19456" + ",t=" + "2" + ",p=" + "1" + "$";
    assert start == "$argon2id$v=19$m=19456,t=2,p=1$";
    assert Print(p, salt, key) == start + (Encode(Std, salt) + "$" + Encode(Std, key));
  }

  /** The PHC string: version, memory, rounds and lanes in decimal, salt and key in base64. */
  lemma PrintedInFull(p: Params, salt: Bytes, key: Bytes)
    ensures Print(p, salt, key)
      == "$argon2id$v=" + Format(19) + "$m=" + Format(p.memory) + ",t=" + Format(p.iterations) + ",p="
        + Format(p.parallelism) + "$" + (Encode(Std, salt) + "$" + Encode(Std, key))
  {
    hide Format, Encode;
  }

  /** A hash made by any configured hasher is judged by any other as the key derivation
      decides: the right password always matches, raising parameters invalidates nothing,
      and a wrong password matches only by a collision of derived keys. */
  lemma VerifyHash(configured: Params, own: Params, kdf: KDF, password: Bytes, salt: Bytes, attempt: Bytes)
    requires configured.InRange()
    requires forall w, s, t, m, l, n :: |kdf(w, s, t, m, l, n)| == n
    ensures var p := NewArgon2id(configured);
      Verify(own, kdf, Hash(p, kdf, password, salt), attempt) ==
        if kdf(attempt, salt, p.iterations, p.memory, p.parallelism, p.keyLength)
          == kdf(password, salt, p.iterations, p.memory, p.parallelism, p.keyLength)
        then Match else Mismatch
    ensures Verify(own, kdf, Hash(NewArgon2id(configured), kdf, password, salt), password) == Match
  {
    var p := NewArgon2id(configured);
    var key := kdf(password, salt, p.iterations, p.memory, p.parallelism, p.keyLength);
    assert |key| == p.keyLength;
    DecodePrint(p, salt, key);
  }

  /** Printing is injective: two hashes agree only on equal parameters, salt and key. */
  lemma PrintInjective(p: Params, salt: Bytes, key: Bytes, q: Params, salt': Bytes, key': Bytes)
    requires p.InRange() && q.InRange() && key != [] && key' != []
    requires Print(p, salt, key) == Print(q, salt', key')
    ensures p.memory == q.memory && p.iterations == q.iterations && p.parallelism == q.parallelism
    ensures salt == salt' && key == key'
  {
    DecodePrint(p, salt, key);
    DecodePrint(q, salt', key');
  }

  /** A printed string makes verification panic exactly if its rounds or lanes are zero; no
      configured hasher prints one. */
  lemma PrintedPanics(own: Params, kdf: KDF, p: Params, salt: Bytes, key: Bytes, attempt: Bytes)
    requires p.InRange() && key != []
    ensures Verify(own, kdf, Print(p, salt, key), attempt) == Panic <==> !p.Runnable()
    ensures p.memory > 0 && p.saltLength > 0 && p.keyLength > 0 && NewArgon2id(p) == p ==>
      Verify(own, kdf, Print(p, salt, key), attempt) != Panic
  {
    DecodePrint(p, salt, key);
  }

  /** Of all strings exactly those make verification panic that decode like the printed string
      of parameters with zero rounds or lanes; and every string that decodes is verified like
      the printed one it decodes like. */
  lemma VerifyPanics(own: Params, kdf: KDF, encoded: string, attempt: Bytes)
    ensures Verify(own, kdf, encoded, attempt) == Panic <==>
      exists p: Params, salt: Bytes, key: Bytes ::
        p.InRange() && key != [] && !p.Runnable() && DecodeHash(encoded) == DecodeHash(Print(p, salt, key))
    ensures DecodeHash(encoded).Ok? ==>
      var d := DecodeHash(encoded).value;
      Verify(own, kdf, encoded, attempt)
        == Verify(own, kdf, Print(Params(d.memory, d.iterations, d.parallelism, 0, 0), d.salt, d.key), attempt)
  {
    hide DecodeHash, Print;
    if DecodeHash(encoded).Ok? {
      var d := DecodeHash(encoded).value;
      var p := Params(d.memory, d.iterations, d.parallelism, 0, 0);
      DecodePrint(p, d.salt, d.key);
      assert p.InRange() && DecodeHash(encoded) == DecodeHash(Print(p, d.salt, d.key));
    }
    forall p: Params, salt: Bytes, key: Bytes |
      p.InRange() && key != [] && !p.Runnable() && DecodeHash(encoded) == DecodeHash(Print(p, salt, key))
      ensures Verify(own, kdf, encoded, attempt) == Panic
    {
      DecodePrint(p, salt, key);
    }
  }
}

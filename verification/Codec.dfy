/** Unpadded base64 of RFC 4648, sections 4 and 5, as the Raw encodings of Go's
    encoding/base64 print and read it. */
module Base64 {
  import opened Wrappers

  newtype byte = x: int | 0 <= x < 256

  type Digit = d: int | 0 <= d < 64

  /** The standard alphabet, or the URL-safe one. */
  datatype Alphabet = Std | Url

  function Letter(a: Alphabet, d: Digit): char {
    if d < 26 then 'A' + d as char
    else if d < 52 then 'a' + (d - 26) as char
    else if d < 62 then '0' + (d - 52) as char
    else if d == 62 then (if a.Std? then '+' else '-')
    else (if a.Std? then '/' else '_')
  }

  function DigitOf(a: Alphabet, c: char): Option<Digit> {
    if 'A' <= c <= 'Z' then Some(c as int - 'A' as int)
    else if 'a' <= c <= 'z' then Some(c as int - 'a' as int + 26)
    else if '0' <= c <= '9' then Some(c as int - '0' as int + 52)
    else if c == Letter(a, 62) then Some(62)
    else if c == Letter(a, 63) then Some(63)
    else None
  }

  /** Groups of three bytes as four digits; a last group of one or two bytes as two or three. */
  function ToDigits(s: seq<byte>): seq<Digit> {
    if |s| == 0 then []
    else
      var x := s[0] as int;
      if |s| == 1 then [x / 4, x % 4 * 16]
      else
        var y := s[1] as int;
        if |s| == 2 then [x / 4, x % 4 * 16 + y / 16, y % 16 * 4]
        else
          var z := s[2] as int;
          [x / 4, x % 4 * 16 + y / 16, y % 16 * 4 + z / 64, z % 64] + ToDigits(s[3..])
  }

  /** A last group of two or three digits drops the bits that do not fill a byte. */
  function FromDigits(d: seq<Digit>): Option<seq<byte>> {
    if |d| == 0 then Some([])
    else if |d| == 1 then None
    else
      var p: int, q: int := d[0], d[1];
      var x := (p * 4 + q / 16) as byte;
      if |d| == 2 then Some([x])
      else
        var r: int := d[2];
        var y := (q % 16 * 16 + r / 4) as byte;
        if |d| == 3 then Some([x, y])
        else
          var t: int := d[3];
          var z := (r % 4 * 64 + t) as byte;
          match FromDigits(d[4..])
          case None => None
          case Some(rest) => Some([x, y, z] + rest)
  }

  function Spell(a: Alphabet, d: seq<Digit>): string {
    if d == [] then "" else [Letter(a, d[0])] + Spell(a, d[1..])
  }

  /** Reads letters back, skipping line breaks wherever they occur. */
  function Read(a: Alphabet, t: string): Option<seq<Digit>> {
    if t == "" then Some([])
    else if t[0] == '\r' || t[0] == '\n' then Read(a, t[1..])
    else match (DigitOf(a, t[0]), Read(a, t[1..]))
      case (Some(d), Some(rest)) => Some([d] + rest)
      case _ => None
  }

  function Encode(a: Alphabet, s: seq<byte>): string {
    Spell(a, ToDigits(s))
  }

  function Decode(a: Alphabet, t: string): Option<seq<byte>> {
    match Read(a, t)
    case None => None
    case Some(d) => FromDigits(d)
  }

  // ---------------------------------------------------------------- the encoding of RFC 4648

  const CAPITALS := "ABCDEFGHIJKLMNOPQRSTUVWXYZ"
  const SMALLS := "abcdefghijklmnopqrstuvwxyz"
  const DECIMALS := "0123456789"

  function Table(a: Alphabet): string {
    CAPITALS + SMALLS + DECIMALS + if a == Std then "+/" else "-_"
  }

  lemma Stretches()
    ensures |CAPITALS| == |SMALLS| == 26 && |DECIMALS| == 10
    ensures forall d :: 0 <= d < 26 ==> CAPITALS[d] == 'A' + d as char
    ensures forall d :: 0 <= d < 26 ==> SMALLS[d] == 'a' + d as char
    ensures forall d :: 0 <= d < 10 ==> DECIMALS[d] == '0' + d as char
  {
  }

  /** The letters are those of tables 1 and 2. */
  lemma LettersOfTheTable(a: Alphabet, d: Digit)
    ensures |Table(a)| == 64 && Letter(a, d) == Table(a)[d]
  {
    Stretches();
    hide CAPITALS, SMALLS, DECIMALS;
  }

  /** No other character is read. */
  lemma OnlyTheTableIsRead(a: Alphabet, c: char)
    ensures DigitOf(a, c).Some? <==> c in Table(a)
  {
    hide Table;
    LettersOfTheTable(a, 0);
    if c in Table(a) {
      var i :| 0 <= i < |Table(a)| && Table(a)[i] == c;
      LettersOfTheTable(a, i);
    }
    if DigitOf(a, c).Some? {
      LettersOfTheTable(a, DigitOf(a, c).value);
    }
  }

  /** The low bits of a number, the highest first. */
  function Bits(x: nat, n: nat): (b: seq<bool>)
    ensures |b| == n
  {
    if n == 0 then [] else Bits(x / 2, n - 1) + [x % 2 == 1]
  }

  function ByteBits(s: seq<byte>): (b: seq<bool>)
    ensures |b| == 8 * |s|
  {
    if s == [] then [] else Bits(s[0] as int, 8) + ByteBits(s[1..])
  }

  function DigitBits(d: seq<Digit>): (b: seq<bool>)
    ensures |b| == 6 * |d|
  {
    if d == [] then [] else Bits(d[0], 6) + DigitBits(d[1..])
  }

  function Pow2(n: nat): nat {
    if n == 0 then 1 else 2 * Pow2(n - 1)
  }

  lemma Halve(high: nat, low: nat, p: nat)
    ensures (high * (2 * p) + low) / 2 == high * p + low / 2 && (high * (2 * p) + low) % 2 == low % 2
  {
    assert high * (2 * p) == 2 * (high * p);
  }

  lemma {:induction false} JoinBits(high: nat, low: nat, a: nat, b: nat)
    requires low < Pow2(b)
    ensures Bits(high * Pow2(b) + low, a + b) == Bits(high, a) + Bits(low, b)
    decreases b
  {
    if b > 0 {
      var x := high * Pow2(b) + low;
      Halve(high, low, Pow2(b - 1));
      JoinBits(high, low / 2, a, b - 1);
      assert Bits(x, a + b) == Bits(x / 2, a + b - 1) + [x % 2 == 1];
      assert Bits(low, b) == Bits(low / 2, b - 1) + [low % 2 == 1];
      hide Bits;
      var (front, last) := (Bits(low / 2, b - 1), [low % 2 == 1]);
      assert Bits(high, a) + front + last == Bits(high, a) + (front + last);
    } else {
      assert Bits(low, 0) == [];
    }
  }

  lemma SmallPowers()
    ensures Pow2(2) == 4 && Pow2(4) == 16 && Pow2(6) == 64
  {
    assert Pow2(3) == 8;
  }

  lemma SplitByte(x: byte)
    ensures var n := x as int;
      && Bits(n, 8) == Bits(n / 4, 6) + Bits(n % 4, 2) == Bits(n / 16, 4) + Bits(n % 16, 4)
      && Bits(n, 8) == Bits(n / 64, 2) + Bits(n % 64, 6)
  {
    hide Bits;
    var n := x as int;
    SmallPowers();
    hide Pow2;
    JoinBits(n / 4, n % 4, 6, 2);
    JoinBits(n / 16, n % 16, 4, 4);
    JoinBits(n / 64, n % 64, 2, 6);
  }

  lemma JoinDigits(x: nat, y: nat, p: nat, q: nat)
    requires x < 4 && y < 16 && p < 16 && q < 4
    ensures Bits(x * 16 + y, 6) == Bits(x, 2) + Bits(y, 4) && Bits(p * 4 + q, 6) == Bits(p, 4) + Bits(q, 2)
  {
    hide Bits;
    SmallPowers();
    hide Pow2;
    JoinBits(x, y, 2, 4);
    JoinBits(p, q, 4, 2);
  }

  lemma ThreeBytes(x: byte, y: byte, z: byte)
    ensures var (a, b, c) := (x as int, y as int, z as int);
      Bits(a / 4, 6) + Bits(a % 4 * 16 + b / 16, 6) + Bits(b % 16 * 4 + c / 64, 6) + Bits(c % 64, 6)
        == Bits(a, 8) + Bits(b, 8) + Bits(c, 8)
  {
    hide Bits;
    var (a, b, c) := (x as int, y as int, z as int);
    SplitByte(x);
    SplitByte(y);
    SplitByte(z);
    JoinDigits(a % 4, b / 16, b % 16, c / 64);
  }

  function Unset(n: nat): (b: seq<bool>)
    ensures |b| == n && forall i :: 0 <= i < n ==> !b[i]
  {
    seq(n, _ => false)
  }

  lemma {:induction false} ZeroBits(n: nat)
    ensures Bits(0, n) == Unset(n)
  {
    if n > 0 {
      ZeroBits(n - 1);
    }
  }

  lemma Behind(a: seq<bool>, b: seq<bool>, c: seq<bool>, d: seq<bool>, x: seq<bool>, y: seq<bool>, z: seq<bool>,
               rest: seq<bool>)
    requires a + b + c + d == x + y + z
    ensures a + (b + (c + (d + rest))) == x + (y + (z + rest))
  {
    assert a + (b + (c + (d + rest))) == (a + b + c + d) + rest;
    assert x + (y + (z + rest)) == (x + y + z) + rest;
  }

  lemma ThreeBytesOf(s: seq<byte>)
    requires |s| >= 3
    ensures ByteBits(s) == Bits(s[0] as int, 8) + (Bits(s[1] as int, 8) + (Bits(s[2] as int, 8) + ByteBits(s[3..])))
  {
    hide Bits;
    var t := s[1..];
    var u := t[1..];
    assert u[1..] == s[3..];
    assert ByteBits(u) == Bits(u[0] as int, 8) + ByteBits(u[1..]);
    assert ByteBits(t) == Bits(t[0] as int, 8) + ByteBits(u);
  }

  lemma FourDigitsOf(d: seq<Digit>)
    requires |d| >= 4
    ensures DigitBits(d) == Bits(d[0], 6) + (Bits(d[1], 6) + (Bits(d[2], 6) + (Bits(d[3], 6) + DigitBits(d[4..]))))
  {
    hide Bits;
    var e := d[1..];
    var f := e[1..];
    var g := f[1..];
    assert g[1..] == d[4..];
    assert DigitBits(g) == Bits(g[0], 6) + DigitBits(g[1..]);
    assert DigitBits(f) == Bits(f[0], 6) + DigitBits(g);
    assert DigitBits(e) == Bits(e[0], 6) + DigitBits(f);
  }

  lemma LastBytes(s: seq<byte>)
    ensures |s| == 1 ==> ByteBits(s) == Bits(s[0] as int, 8)
    ensures |s| == 2 ==> ByteBits(s) == Bits(s[0] as int, 8) + Bits(s[1] as int, 8)
  {
    hide Bits;
    if |s| == 2 {
      var t := s[1..];
      assert t[1..] == [] && ByteBits(t) == Bits(t[0] as int, 8) + ByteBits([]);
    }
  }

  lemma LastDigits(d: seq<Digit>)
    ensures |d| == 2 ==> DigitBits(d) == Bits(d[0], 6) + Bits(d[1], 6)
    ensures |d| == 3 ==> DigitBits(d) == Bits(d[0], 6) + (Bits(d[1], 6) + Bits(d[2], 6))
  {
    hide Bits;
    if |d| == 2 {
      var e := d[1..];
      assert e[1..] == [] && DigitBits(e) == Bits(e[0], 6) + DigitBits([]);
    }
    if |d| == 3 {
      var e := d[1..];
      var f := e[1..];
      assert f[1..] == [] && DigitBits(f) == Bits(f[0], 6) + DigitBits([]);
      assert DigitBits(e) == Bits(e[0], 6) + DigitBits(f);
    }
  }

  lemma TwoBytes(x: byte, y: byte)
    ensures var (a, b) := (x as int, y as int);
      Bits(a / 4, 6) + (Bits(a % 4 * 16 + b / 16, 6) + Bits(b % 16 * 4, 6)) == Bits(a, 8) + Bits(b, 8) + Unset(2)
  {
    hide Bits;
    var (a, b) := (x as int, y as int);
    SplitByte(x);
    SplitByte(y);
    JoinDigits(a % 4, b / 16, b % 16, 0);
    ZeroBits(2);
  }

  lemma OneByte(x: byte)
    ensures Bits(x as int / 4, 6) + Bits(x as int % 4 * 16, 6) == Bits(x as int, 8) + Unset(4)
  {
    hide Bits;
    SplitByte(x);
    JoinDigits(x as int % 4, 0, 0, 0);
    ZeroBits(4);
  }

  /** Read as bits, the digits are the bytes followed by fewer than six unset bits: as few as
      fill up the last digit. */
  lemma {:induction false} DigitsHoldTheBits(s: seq<byte>)
    ensures DigitBits(ToDigits(s)) == ByteBits(s) + Unset(if |s| % 3 == 1 then 4 else if |s| % 3 == 2 then 2 else 0)
    decreases |s|, 1
  {
    hide Bits, ByteBits, DigitBits, Unset;
    var d := ToDigits(s);
    if |s| >= 3 {
      assert d[..4] == [d[0], d[1], d[2], d[3]] && d[4..] == ToDigits(s[3..]);
      GroupBits(s, d);
    } else if |s| == 2 {
      LastBytes(s);
      LastDigits(d);
      TwoBytes(s[0], s[1]);
    } else if |s| == 1 {
      LastBytes(s);
      LastDigits(d);
      OneByte(s[0]);
    } else {
      assert |DigitBits(d)| == |ByteBits(s)| == |Unset(0)| == 0;
    }
  }

  lemma {:induction false} GroupBits(s: seq<byte>, d: seq<Digit>)
    requires |s| >= 3 && |d| >= 4 && d[4..] == ToDigits(s[3..])
    requires var (x, y, z) := (s[0] as int, s[1] as int, s[2] as int);
      d[0] == x / 4 && d[1] == x % 4 * 16 + y / 16 && d[2] == y % 16 * 4 + z / 64 && d[3] == z % 64
    ensures DigitBits(d) == ByteBits(s) + Unset(if |s| % 3 == 1 then 4 else if |s| % 3 == 2 then 2 else 0)
    decreases |s|, 0
  {
    hide Bits, ByteBits, DigitBits, ToDigits, Unset;
    var rest := ByteBits(s[3..]);
    var pad := Unset(if |s| % 3 == 1 then 4 else if |s| % 3 == 2 then 2 else 0);
    DigitsHoldTheBits(s[3..]);
    ThreeBytesOf(s);
    FourDigitsOf(d);
    ThreeBytes(s[0], s[1], s[2]);
    var (x, y, z) := (Bits(s[0] as int, 8), Bits(s[1] as int, 8), Bits(s[2] as int, 8));
    Behind(Bits(d[0], 6), Bits(d[1], 6), Bits(d[2], 6), Bits(d[3], 6), x, y, z, rest + pad);
    assert x + (y + (z + (rest + pad))) == x + (y + (z + rest)) + pad;
  }

  /** A byte string is printed as one letter of the table for each digit. */
  lemma {:induction false} SpeltLetterByLetter(a: Alphabet, d: seq<Digit>, i: nat)
    requires i < |d|
    ensures |Spell(a, d)| == |d| && |Table(a)| == 64 && Spell(a, d)[i] == Table(a)[d[i]]
  {
    hide Table;
    SpellShort(a, d);
    LettersOfTheTable(a, d[i]);
    if i > 0 {
      SpeltLetterByLetter(a, d[1..], i - 1);
    }
  }

  // ---------------------------------------------------------------- round trips

  lemma {:induction false} ReadSpell(a: Alphabet, d: seq<Digit>)
    ensures Read(a, Spell(a, d)) == Some(d)
    ensures forall c :: c in Spell(a, d) ==> DigitOf(a, c).Some?
  {
    if d != [] {
      ReadSpell(a, d[1..]);
      var c := Letter(a, d[0]);
      assert DigitOf(a, c) == Some(d[0]) && c != '\r' && c != '\n';
      assert Spell(a, d)[0] == c && Spell(a, d)[1..] == Spell(a, d[1..]);
      assert [d[0]] + d[1..] == d;
    }
  }

  lemma {:induction false} FromToDigits(s: seq<byte>)
    ensures FromDigits(ToDigits(s)) == Some(s)
  {
    if |s| >= 3 {
      FromToDigits(s[3..]);
      assert ToDigits(s)[4..] == ToDigits(s[3..]);
      assert s == [s[0], s[1], s[2]] + s[3..];
    } else if |s| == 2 {
      assert s == [s[0], s[1]];
    } else if |s| == 1 {
      assert s == [s[0]];
    }
  }

  /** Decoding undoes encoding, for both alphabets and every byte string. */
  lemma RoundTrip(a: Alphabet, s: seq<byte>)
    ensures Decode(a, Encode(a, s)) == Some(s)
  {
    ReadSpell(a, ToDigits(s));
    FromToDigits(s);
  }

  /** The bits a short last group leaves over are zero. */
  predicate NoSpareBits(d: seq<Digit>) {
    if |d| == 2 then d[1] % 16 == 0
    else if |d| == 3 then d[2] % 4 == 0
    else if |d| >= 4 then NoSpareBits(d[4..])
    else true
  }

  /** Splitting the bytes of a group again gives the digits that formed them. */
  lemma Regroup(p: Digit, q: Digit, r: Digit, t: Digit)
    ensures var x, y, z := p * 4 + q / 16, q % 16 * 16 + r / 4, r % 4 * 64 + t;
      x / 4 == p && x % 4 == q / 16 && y / 16 == q % 16 && y % 16 == r / 4 && z / 64 == r % 4 && z % 64 == t
  {
  }

  lemma {:induction false} ToFromDigits(d: seq<Digit>)
    requires FromDigits(d).Some?
    ensures ToDigits(FromDigits(d).value) == d <==> NoSpareBits(d)
  {
    if |d| >= 4 {
      ToFromDigits(d[4..]);
      Regroup(d[0], d[1], d[2], d[3]);
      var s := FromDigits(d).value;
      assert s[3..] == FromDigits(d[4..]).value;
      assert ToDigits(s) == [d[0], d[1], d[2], d[3]] + ToDigits(s[3..]);
      assert d == [d[0], d[1], d[2], d[3]] + d[4..];
    } else if |d| == 3 {
      Regroup(d[0], d[1], d[2], 0);
    } else if |d| == 2 {
      Regroup(d[0], d[1], 0, 0);
    }
  }

  predicate NoLineBreaks(t: string) {
    '\r' !in t && '\n' !in t
  }

  lemma {:induction false} SpellRead(a: Alphabet, t: string)
    requires Read(a, t).Some?
    ensures Spell(a, Read(a, t).value) == t <==> NoLineBreaks(t)
    ensures |Read(a, t).value| <= |t|
  {
    if t != "" {
      SpellRead(a, t[1..]);
      assert t == [t[0]] + t[1..];
      if t[0] == '\r' || t[0] == '\n' {
        SpellShort(a, Read(a, t).value);
      } else {
        assert Letter(a, DigitOf(a, t[0]).value) == t[0];
        assert Read(a, t).value[1..] == Read(a, t[1..]).value;
      }
    }
  }

  lemma {:induction false} SpellShort(a: Alphabet, d: seq<Digit>)
    ensures |Spell(a, d)| == |d|
  {
    if d != [] { SpellShort(a, d[1..]); }
  }

  /** The lenient decoder accepts several spellings of a byte string; the printed one is the
      only one without line breaks and spare bits. */
  lemma CanonicalSpelling(a: Alphabet, t: string)
    requires Decode(a, t).Some?
    ensures Encode(a, Decode(a, t).value) == t <==> NoLineBreaks(t) && NoSpareBits(Read(a, t).value)
  {
    var d := Read(a, t).value;
    SpellRead(a, t);
    ToFromDigits(d);
    if Encode(a, Decode(a, t).value) == t {
      ReadSpell(a, ToDigits(Decode(a, t).value));
    }
  }
}

/** Decimal printing, and the scanning of fmt.Sscanf's %d verb. */
module Decimal {
  import opened Wrappers

  predicate IsDigit(c: char) {
    '0' <= c <= '9'
  }

  function DigitChar(d: int): char
    requires 0 <= d < 10
  {
    '0' + d as char
  }

  function Format(n: nat): string {
    if n < 10 then [DigitChar(n)] else Format(n / 10) + [DigitChar(n % 10)]
  }

  /** Length of the longest prefix of digits. */
  function DigitPrefix(s: string): (k: nat)
    ensures k <= |s| && forall i :: 0 <= i < k ==> IsDigit(s[i])
    ensures k < |s| ==> !IsDigit(s[k])
  {
    if s == "" || !IsDigit(s[0]) then 0 else 1 + DigitPrefix(s[1..])
  }

  function Value(s: string): nat
    requires forall i :: 0 <= i < |s| ==> IsDigit(s[i])
  {
    if s == "" then 0
    else
      assert IsDigit(s[|s| - 1]);
      Value(s[..|s| - 1]) * 10 + (s[|s| - 1] as int - '0' as int)
  }

  predicate IsBlank(c: char) {
    c == ' ' || c == '\t' || c == '\r' || c == 0x0b as char || c == 0x0c as char
  }

  /** Blanks before a number are skipped; a newline is left for the number to trip over. */
  function SkipBlanks(s: string): string {
    if s != "" && IsBlank(s[0]) then SkipBlanks(s[1..]) else s
  }

  /** %d into an unsigned operand below `limit`: the number and the unread input. */
  function ScanUnsigned(s: string, limit: nat): Option<(nat, string)> {
    var t := SkipBlanks(s);
    var k := DigitPrefix(t);
    if k == 0 || Value(t[..k]) >= limit then None else Some((Value(t[..k]), t[k..]))
  }

  /** %d into a 64-bit int: an optional sign, then digits. */
  function ScanSigned(s: string): Option<(int, string)> {
    var t := SkipBlanks(s);
    var negative := t != "" && t[0] == '-';
    var u := if t != "" && (t[0] == '-' || t[0] == '+') then t[1..] else t;
    var k := DigitPrefix(u);
    if k == 0 then None
    else
      var n: int := Value(u[..k]);
      if negative then (if n > 0x8000_0000_0000_0000 then None else Some((-n, u[k..])))
      else (if n >= 0x8000_0000_0000_0000 then None else Some((n, u[k..])))
  }

  lemma {:induction false} FormatDigits(n: nat)
    ensures |Format(n)| > 0 && forall i :: 0 <= i < |Format(n)| ==> IsDigit(Format(n)[i])
    ensures Value(Format(n)) == n
  {
    if n >= 10 {
      FormatDigits(n / 10);
      assert Format(n)[..|Format(n)| - 1] == Format(n / 10);
    } else {
      assert Format(n)[..0] == "";
    }
  }

  /** Decimal notation: one of the ten digits, or the last digit behind the others. */
  lemma FormatExactly(n: nat)
    ensures n < 10 ==> Format(n) == ["0123456789"[n]]
    ensures n >= 10 ==> Format(n) == Format(n / 10) + ["0123456789"[n % 10]]
  {
  }

  lemma {:induction false} DigitPrefixOf(s: string, rest: string)
    requires forall i :: 0 <= i < |s| ==> IsDigit(s[i])
    requires rest == "" || !IsDigit(rest[0])
    ensures DigitPrefix(s + rest) == |s|
  {
    if s == "" {
      assert s + rest == rest;
    } else {
      DigitPrefixOf(s[1..], rest);
      assert (s + rest)[1..] == s[1..] + rest;
    }
  }

  /** A printed number is scanned back, leaving whatever follows it. */
  lemma ScanFormat(n: nat, rest: string, limit: nat)
    requires rest == "" || !IsDigit(rest[0])
    ensures n < limit ==> ScanUnsigned(Format(n) + rest, limit) == Some((n, rest))
    ensures n < 0x8000_0000_0000_0000 ==> ScanSigned(Format(n) + rest) == Some((n, rest))
  {
    FormatDigits(n);
    DigitPrefixOf(Format(n), rest);
    var t := Format(n) + rest;
    assert t[0] == Format(n)[0];
    assert SkipBlanks(t) == t;
    assert t[..|Format(n)|] == Format(n) && t[|Format(n)|..] == rest;
  }

  lemma FormattedSplits(n: nat, rest: string)
    requires rest == "" || !IsDigit(rest[0])
    ensures var t := Format(n) + rest;
      && t != "" && IsDigit(t[0]) && DigitPrefix(t) == |Format(n)|
      && t[..|Format(n)|] == Format(n) && t[|Format(n)|..] == rest && |Format(n)| > 0 && Value(Format(n)) == n
  {
    FormatDigits(n);
    DigitPrefixOf(Format(n), rest);
    assert (Format(n) + rest)[0] == Format(n)[0];
  }

  lemma SignSplits(sign: char, n: nat, rest: string)
    requires (sign == '-' || sign == '+') && (rest == "" || !IsDigit(rest[0]))
    ensures var t := [sign] + (Format(n) + rest);
      t[1..] == Format(n) + rest && SkipBlanks(t) == t && DigitPrefix(t) == 0
  {
    hide Format;
    assert ([sign] + (Format(n) + rest))[1..] == Format(n) + rest;
  }

  /** Signs are read, into signed operands only. */
  lemma ScanSigns(sign: char, n: nat, rest: string, limit: nat)
    requires (sign == '-' || sign == '+') && (rest == "" || !IsDigit(rest[0]))
    ensures var m: int := n;
      ScanSigned([sign] + (Format(n) + rest)) ==
        if sign == '-' then (if m <= 0x8000_0000_0000_0000 then Some((-m, rest)) else None)
        else (if m < 0x8000_0000_0000_0000 then Some((m, rest)) else None)
    ensures ScanUnsigned([sign] + (Format(n) + rest), limit) == None
  {
    FormattedSplits(n, rest);
    SignSplits(sign, n, rest);
    hide Format, Value, SkipBlanks, DigitPrefix;
  }

  /** Numbers that do not fit are not read. */
  lemma ScanTooLarge(n: nat, rest: string, limit: nat)
    requires rest == "" || !IsDigit(rest[0])
    ensures n >= limit ==> ScanUnsigned(Format(n) + rest, limit) == None
    ensures n >= 0x8000_0000_0000_0000 ==> ScanSigned(Format(n) + rest) == None
  {
    FormattedSplits(n, rest);
    hide Format, Value;
    assert SkipBlanks(Format(n) + rest) == Format(n) + rest;
  }

  /** Where no digit comes, no number is read, signed or not. */
  lemma ScanNothing(s: string, limit: nat)
    requires s == "" || (!IsDigit(s[0]) && !IsBlank(s[0]))
    ensures ScanUnsigned(s, limit) == None && ScanSigned(['-'] + s) == None && ScanSigned(['+'] + s) == None
    ensures s == "" || (s[0] != '-' && s[0] != '+') ==> ScanSigned(s) == None
  {
    assert (['-'] + s)[1..] == s && (['+'] + s)[1..] == s;
    assert SkipBlanks(['-'] + s) == ['-'] + s && SkipBlanks(['+'] + s) == ['+'] + s && SkipBlanks(s) == s;
  }
}

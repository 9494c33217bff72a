/** Field conditions (adapter/adapter.go) and their evaluation over in-memory rows
    (adapter/memory/memory.go). */
module Conditions {
  import opened Wrappers
  import opened Decimal

  datatype Value = Nil | Str(s: string) | Int(n: int) | Time(at: int) | Bool(b: bool)

  datatype Comparison = Eq | Ne | Gt | Gte | Lt | Lte

  /** What the condition constructors build. */
  datatype Condition =
    | Compare(field: string, op: Comparison, v: Value)
    | In(field: string, vs: seq<Value>)
    | Like(field: string, v: Value)
    | IsNull(field: string)
    | IsNotNull(field: string)

  type Row = map<string, Value>

  /** The clock library: RFC 3339 parsing and the default formatting of instants. */
  datatype Clock = Clock(parse: string -> Option<int>, format: int -> string)

  // ---------------------------------------------------------------- conversions

  const TWO53: int := 0x20_0000_0000_0000

  /** How often a magnitude must be halved to fit a 53-bit significand. */
  function Excess(m: nat): nat {
    if m < TWO53 then 0 else 1 + Excess(m / 2)
  }

  function Pow2(k: nat): (p: nat)
    ensures p > 0
  {
    if k == 0 then 1 else 2 * Pow2(k - 1)
  }

  /** The integer value of float64(n): nearest multiple of the unit, ties to even. */
  function ToFloat(n: int): int {
    var m := if n < 0 then -n else n;
    var u := Pow2(Excess(m));
    var q, r := m / u, m % u;
    var rounded := if 2 * r > u || (2 * r == u && q % 2 == 1) then (q + 1) * u else q * u;
    if n < 0 then -rounded else rounded
  }

  function ParseTime(c: Clock, v: Value): Option<int> {
    match v
    case Time(at) => Some(at)
    case Str(s) => c.parse(s)
    case _ => None
  }

  function ParseNumber(v: Value): Option<int> {
    match v
    case Int(n) => Some(ToFloat(n))
    case _ => None
  }

  /** The %v verb. */
  function Text(c: Clock, v: Value): string {
    match v
    case Nil => "<nil>"
    case Str(s) => s
    case Int(n) => if n < 0 then "-" + Format(-n) else Format(n)
    case Time(at) => c.format(at)
    case Bool(b) => if b then "true" else "false"
  }

  /** Go's string order. */
  predicate TextLess(a: string, b: string) {
    if b == "" then false
    else if a == "" then true
    else a[0] < b[0] || (a[0] == b[0] && TextLess(a[1..], b[1..]))
  }

  predicate MatchEqual(c: Clock, a: Value, b: Value) {
    if a.Nil? && b.Nil? then true
    else if a.Nil? || b.Nil? then false
    else match (ParseTime(c, a), ParseTime(c, b))
      case (Some(s), Some(t)) => s == t
      case _ =>
        match (ParseNumber(a), ParseNumber(b))
        case (Some(x), Some(y)) => x == y
        case _ => Text(c, a) == Text(c, b)
  }

  predicate MatchLess(c: Clock, a: Value, b: Value) {
    match (ParseTime(c, a), ParseTime(c, b))
    case (Some(s), Some(t)) => s < t
    case _ =>
      match (ParseNumber(a), ParseNumber(b))
      case (Some(x), Some(y)) => x < y
      case _ => TextLess(Text(c, a), Text(c, b))
  }

  predicate MatchGreater(c: Clock, a: Value, b: Value) {
    match (ParseTime(c, a), ParseTime(c, b))
    case (Some(s), Some(t)) => s > t
    case _ =>
      match (ParseNumber(a), ParseNumber(b))
      case (Some(x), Some(y)) => x > y
      case _ => TextLess(Text(c, b), Text(c, a))
  }

  predicate Matches(c: Clock, row: Row, cond: Condition) {
    var found := cond.field in row;
    var val := if found then row[cond.field] else Nil;
    match cond
    case IsNull(_) => !found || val.Nil?
    case IsNotNull(_) => found && !val.Nil?
    case In(_, vs) => exists i | 0 <= i < |vs| :: MatchEqual(c, val, vs[i])
    case Like(_, v) => Text(c, val) == Text(c, v)  // no case of its own: the textual fallback
    case Compare(_, op, v) =>
      match op
      case Eq => found && MatchEqual(c, val, v)
      case Ne => !(found && MatchEqual(c, val, v))
      case Lt => found && MatchLess(c, val, v)
      case Lte => found && (MatchLess(c, val, v) || MatchEqual(c, val, v))
      case Gt => found && MatchGreater(c, val, v)
      case Gte => found && (MatchGreater(c, val, v) || MatchEqual(c, val, v))
  }

  predicate MatchConditions(c: Clock, row: Row, where: seq<Condition>) {
    forall i | 0 <= i < |where| :: Matches(c, row, where[i])
  }

  // ---------------------------------------------------------------- facts

  lemma {:induction false} TextLessAsymmetric(a: string, b: string)
    ensures !(TextLess(a, b) && TextLess(b, a))
    ensures a == b ==> !TextLess(a, b)
    ensures a != b ==> TextLess(a, b) || TextLess(b, a)
  {
    if a != "" && b != "" {
      TextLessAsymmetric(a[1..], b[1..]);
      assert a == [a[0]] + a[1..] && b == [b[0]] + b[1..];
    }
  }

  lemma MatchEqualSymmetric(c: Clock, a: Value, b: Value)
    ensures MatchEqual(c, a, b) <==> MatchEqual(c, b, a)
  {
  }

  /** The two strict comparisons mirror each other, and exactly one of less, equal and
      greater holds between values that are not nil. */
  lemma Trichotomy(c: Clock, a: Value, b: Value)
    requires a != Nil && b != Nil
    ensures MatchGreater(c, a, b) <==> MatchLess(c, b, a)
    ensures MatchEqual(c, a, b) ==> !MatchLess(c, a, b) && !MatchGreater(c, a, b)
    ensures !MatchEqual(c, a, b) ==> (MatchLess(c, a, b) <==> !MatchGreater(c, a, b))
  {
    TextLessAsymmetric(Text(c, a), Text(c, b));
  }

  lemma {:induction false} SmallHaveNoExcess(n: int)
    requires -TWO53 <= n <= TWO53
    ensures ToFloat(n) == n
  {
    var m := if n < 0 then -n else n;
    if m == TWO53 {
      assert Excess(m) == 1 + Excess(m / 2) == 1;
      assert Pow2(1) == 2 * Pow2(0) == 2;
    }
  }

  lemma LargeIntegersCollide(c: Clock)
    ensures MatchEqual(c, Int(TWO53), Int(TWO53 + 1))
  {
    SmallHaveNoExcess(TWO53);
    var m := TWO53 + 1;
    assert Excess(m) == 1 + Excess(m / 2) == 1;
    assert Pow2(1) == 2 * Pow2(0) == 2;
    assert m / 2 == TWO53 / 2 && m % 2 == 1 && (m / 2) % 2 == 0;
  }

  /** The exponent is the least with which the magnitude fits a 53-bit significand. */
  lemma {:induction false} ExcessIsLeast(m: nat)
    ensures m < TWO53 * Pow2(Excess(m)) && (Excess(m) > 0 ==> TWO53 * Pow2(Excess(m) - 1) <= m)
  {
    if m >= TWO53 {
      var k := Excess(m / 2);
      ExcessIsLeast(m / 2);
      assert Pow2(k + 1) == 2 * Pow2(k);
      if k > 0 {
        assert Pow2(k) == 2 * Pow2(k - 1);
      }
    }
  }

  /** IEEE 754, section 4.3.1: the conversion gives a multiple of the unit in the last place that
      is nearest, the even one of two. */
  lemma FloatIsNearest(n: int)
    ensures var u: int := Pow2(Excess(if n < 0 then -n else n));
      var f := ToFloat(n);
      && f % u == 0 && -u <= 2 * (f - n) <= u && (2 * (f - n) == u || 2 * (n - f) == u ==> f / u % 2 == 0)
    ensures ToFloat(-n) == -ToFloat(n)
  {
    var m := if n < 0 then -n else n;
    Rounding(m, Pow2(Excess(m)));
  }

  /** Rounding a magnitude to a multiple of the unit. */
  lemma Rounding(m: int, u: int)
    requires u > 0
    ensures var (q, r) := (m / u, m % u);
      var f := if 2 * r > u || (2 * r == u && q % 2 == 1) then (q + 1) * u else q * u;
      && f % u == 0 && (-f) % u == 0 && -u <= 2 * (f - m) <= u
      && (2 * (f - m) == u || 2 * (m - f) == u ==> f / u % 2 == 0 && (-f) / u % 2 == 0)
  {
    var (q, r) := (m / u, m % u);
    assert m == q * u + r;
    assert (q + 1) * u == q * u + u;
    MultipleDivides(q, u);
    MultipleDivides(q + 1, u);
  }

  lemma MultipleDivides(q: int, u: int)
    requires u > 0
    ensures (q * u) % u == 0 && (-(q * u)) % u == 0 && (q * u) / u == q && (-(q * u)) / u == -q
  {
    Quotient(q * u, q, u);
    assert -(q * u) == (-q) * u;
    Quotient(-(q * u), -q, u);
  }

  lemma AtLeastOnce(k: int, u: int)
    requires u > 0
    ensures k >= 1 ==> k * u >= u
    ensures k <= -1 ==> k * u <= -u
  {
    if k >= 1 {
      assert (k - 1) * u >= 0;
    } else if k <= -1 {
      assert (-1 - k) * u >= 0;
    }
  }

  lemma Quotient(x: int, q: int, u: int)
    requires u > 0 && x == q * u
    ensures x / u == q && x % u == 0
  {
    var d := x / u;
    assert x == u * d + x % u && 0 <= x % u < u;
    AtLeastOnce(d - q, u);
    assert (d - q) * u == u * d - q * u;
  }

  /** Go compares strings by the first character in which they differ, a prefix being less. */
  lemma {:induction false} TextLessExactly(a: string, b: string)
    ensures TextLess(a, b) <==>
      exists i :: 0 <= i <= |a| && i < |b| && a[..i] == b[..i] && (i == |a| || a[i] < b[i])
  {
    if b != "" && a != "" {
      TextLessExactly(a[1..], b[1..]);
      if TextLess(a, b) {
        if a[0] < b[0] {
          assert a[..0] == b[..0];
        } else {
          var i :| 0 <= i <= |a| - 1 && i < |b| - 1 && a[1..][..i] == b[1..][..i]
            && (i == |a| - 1 || a[1..][i] < b[1..][i]);
          assert a[..i + 1] == [a[0]] + a[1..][..i] && b[..i + 1] == [b[0]] + b[1..][..i];
        }
      }
      if i :| 0 <= i <= |a| && i < |b| && a[..i] == b[..i] && (i == |a| || a[i] < b[i]) {
        if i > 0 {
          assert a[0] == a[..i][0] == b[..i][0] == b[0];
          assert a[1..][..i - 1] == a[..i][1..] == b[..i][1..] == b[1..][..i - 1];
        }
      }
    } else if b != "" {
      assert a[..0] == b[..0];
    }
  }

  /** How values are compared: nothing equals nil but nil; what reads as instants, as instants;
      numbers as numbers; everything else as text. */
  lemma ComparedExactly(c: Clock, a: Value, b: Value)
    ensures a == Nil || b == Nil ==> (MatchEqual(c, a, b) <==> a == b)
    ensures a.Time? && b.Time? ==> (MatchEqual(c, a, b) <==> a.at == b.at) && (MatchLess(c, a, b) <==> a.at < b.at)
    ensures a.Time? && b.Str? && c.parse(b.s).Some? ==>
      && (MatchEqual(c, a, b) <==> a.at == c.parse(b.s).value)
      && (MatchLess(c, a, b) <==> a.at < c.parse(b.s).value) && (MatchLess(c, b, a) <==> c.parse(b.s).value < a.at)
    ensures a.Time? && b.Str? && c.parse(b.s).None? ==>
      (MatchEqual(c, a, b) <==> c.format(a.at) == b.s) && (MatchLess(c, a, b) <==> TextLess(c.format(a.at), b.s))
    ensures a.Str? && b.Str? && (c.parse(a.s).None? || c.parse(b.s).None?) ==>
      (MatchEqual(c, a, b) <==> a.s == b.s) && (MatchLess(c, a, b) <==> TextLess(a.s, b.s))
    ensures a.Str? && b.Str? && c.parse(a.s).Some? && c.parse(b.s).Some? ==>
      && (MatchEqual(c, a, b) <==> c.parse(a.s).value == c.parse(b.s).value)
      && (MatchLess(c, a, b) <==> c.parse(a.s).value < c.parse(b.s).value)
    ensures a.Int? && b.Int? && -TWO53 <= a.n <= TWO53 && -TWO53 <= b.n <= TWO53 ==>
      (MatchEqual(c, a, b) <==> a.n == b.n) && (MatchLess(c, a, b) <==> a.n < b.n)
    ensures a.Int? && b.Str? ==>
      (MatchEqual(c, a, b) <==> b.s == if a.n < 0 then "-" + Format(-a.n) else Format(a.n))
    ensures a.Bool? && b.Str? ==> (MatchEqual(c, a, b) <==> b.s == if a.b then "true" else "false")
    ensures a.Bool? && b.Bool? ==> (MatchEqual(c, a, b) <==> a.b == b.b) && (MatchLess(c, a, b) <==> !a.b && b.b)
  {
    if a.Int? && b.Int? && -TWO53 <= a.n <= TWO53 && -TWO53 <= b.n <= TWO53 {
      SmallHaveNoExcess(a.n);
      SmallHaveNoExcess(b.n);
    }
    assert "true"[0] == 't' && "false"[0] == 'f';
    hide ToFloat, Format;
  }

  /** Of at most this magnitude. */
  predicate UpTo(bound: int, n: int) {
    -bound <= n <= bound
  }

  /** Equality by way of float64 is equality on all integers up to a bound exactly when the bound
      is at most 2^53. */
  lemma EqualityUpTo(c: Clock, bound: nat)
    ensures bound <= TWO53 <==>
      forall x, y :: UpTo(bound, x) && UpTo(bound, y) ==> (MatchEqual(c, Int(x), Int(y)) <==> x == y)
  {
    if bound <= TWO53 {
      forall x, y | UpTo(bound, x) && UpTo(bound, y) ensures MatchEqual(c, Int(x), Int(y)) <==> x == y {
        SmallHaveNoExcess(x);
        SmallHaveNoExcess(y);
      }
    } else {
      LargeIntegersCollide(c);
    }
  }
}

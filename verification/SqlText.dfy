/** SQL text as the dialects of adapter/sql/dialect.go spell it, and a reader of that text. */
module SqlText {
  import opened Wrappers
  import opened Decimal
  import opened Conditions

  datatype Dialect = Postgres | SQLite | MySQL

  datatype Keyword =
    | SELECT | COUNT | DELETE | UPDATE | INSERT | INTO | VALUES | SET | FROM | WHERE | AND | IN | LIKE | IS | NOT
    | NULL | ORDER | BY | ASC | DESC | LIMIT | OFFSET

  /** Parameters are numbered from 1 in the order of the argument list. */
  datatype Token =
    | Ident(name: string)
    | Word(k: Keyword)
    | Num(n: nat)
    | Op(op: Comparison)
    | LeftBracket
    | RightBracket
    | Comma
    | Star
    | Param(i: nat)
    | Mark  // a positional "?"

  /** A statement, as the tokens written into the string builder. */
  type Sql = seq<Token>

  function QuoteChar(d: Dialect): char {
    if d.MySQL? then '`' else '"'
  }

  /** strings.ReplaceAll(name, q, qq). */
  function Doubled(q: char, name: string): string {
    if name == "" then ""
    else (if name[0] == q then [q, q] else [name[0]]) + Doubled(q, name[1..])
  }

  function Quote(d: Dialect, name: string): string {
    [QuoteChar(d)] + Doubled(QuoteChar(d), name) + [QuoteChar(d)]
  }

  function Placeholder(d: Dialect, i: nat): string {
    if d.Postgres? then "$" + Format(i) else "?"
  }

  function Spelling(k: Keyword): string {
    match k
    case SELECT => "SELECT"
    case COUNT => "COUNT"
    case DELETE => "DELETE"
    case UPDATE => "UPDATE"
    case INSERT => "INSERT"
    case INTO => "INTO"
    case VALUES => "VALUES"
    case SET => "SET"
    case FROM => "FROM"
    case WHERE => "WHERE"
    case AND => "AND"
    case IN => "IN"
    case LIKE => "LIKE"
    case IS => "IS"
    case NOT => "NOT"
    case NULL => "NULL"
    case ORDER => "ORDER"
    case BY => "BY"
    case ASC => "ASC"
    case DESC => "DESC"
    case LIMIT => "LIMIT"
    case OFFSET => "OFFSET"
  }

  function Symbol(op: Comparison): string {
    match op
    case Eq => "="
    case Ne => "!="
    case Gt => ">"
    case Gte => ">="
    case Lt => "<"
    case Lte => "<="
  }

  function Spell(d: Dialect, t: Token): string {
    match t
    case Ident(name) => Quote(d, name)
    case Word(k) => Spelling(k)
    case Num(n) => Format(n)
    case Op(op) => Symbol(op)
    case LeftBracket => "("
    case RightBracket => ")"
    case Comma => ","
    case Star => "*"
    case Param(i) => Placeholder(d, i)
    case Mark => "?"
  }

  /** Single spaces separate tokens, except inside brackets, before commas and in COUNT(. */
  predicate Spaced(a: Token, b: Token) {
    !a.LeftBracket? && !b.RightBracket? && !b.Comma? && !(a == Word(COUNT) && b.LeftBracket?)
  }

  /** The text the engine produces for these tokens. */
  function Render(d: Dialect, ts: Sql): string {
    if ts == [] then ""
    else if |ts| == 1 then Spell(d, ts[0])
    else Spell(d, ts[0]) + ((if Spaced(ts[0], ts[1]) then " " else "") + Render(d, ts[1..]))
  }

  // ---------------------------------------------------------------- reading text

  predicate IsLetter(c: char) {
    'A' <= c <= 'Z'
  }

  predicate IsOperator(c: char) {
    c == '=' || c == '<' || c == '>' || c == '!'
  }

  function Punctuation(c: char): Option<Token> {
    if c == '(' then Some(LeftBracket)
    else if c == ')' then Some(RightBracket)
    else if c == ',' then Some(Comma)
    else if c == '*' then Some(Star)
    else None
  }

  /** The reader's own vocabulary, apart from how the engine spells. */
  function KeywordOf(w: string): Option<Token> {
    if w == "SELECT" then Some(Word(SELECT))
    else if w == "COUNT" then Some(Word(COUNT))
    else if w == "DELETE" then Some(Word(DELETE))
    else if w == "UPDATE" then Some(Word(UPDATE))
    else if w == "INSERT" then Some(Word(INSERT))
    else if w == "INTO" then Some(Word(INTO))
    else if w == "VALUES" then Some(Word(VALUES))
    else if w == "SET" then Some(Word(SET))
    else if w == "FROM" then Some(Word(FROM))
    else if w == "WHERE" then Some(Word(WHERE))
    else if w == "AND" then Some(Word(AND))
    else if w == "IN" then Some(Word(IN))
    else if w == "LIKE" then Some(Word(LIKE))
    else if w == "IS" then Some(Word(IS))
    else if w == "NOT" then Some(Word(NOT))
    else if w == "NULL" then Some(Word(NULL))
    else if w == "ORDER" then Some(Word(ORDER))
    else if w == "BY" then Some(Word(BY))
    else if w == "ASC" then Some(Word(ASC))
    else if w == "DESC" then Some(Word(DESC))
    else if w == "LIMIT" then Some(Word(LIMIT))
    else if w == "OFFSET" then Some(Word(OFFSET))
    else None
  }

  /** The character that delimits identifiers in the database's own grammar. */
  function Delimiter(d: Dialect): char {
    match d
    case Postgres => '"'
    case SQLite => '"'
    case MySQL => '`'
  }

  function OperatorOf(w: string): Option<Token> {
    if w == "=" then Some(Op(Eq))
    else if w == "!=" then Some(Op(Ne))
    else if w == ">" then Some(Op(Gt))
    else if w == ">=" then Some(Op(Gte))
    else if w == "<" then Some(Op(Lt))
    else if w == "<=" then Some(Op(Lte))
    else None
  }

  function LetterPrefix(s: string): (k: nat)
    ensures k <= |s| && (k < |s| ==> !IsLetter(s[k])) && forall i :: 0 <= i < k ==> IsLetter(s[i])
  {
    if s == "" || !IsLetter(s[0]) then 0 else 1 + LetterPrefix(s[1..])
  }

  function OperatorPrefix(s: string): (k: nat)
    ensures k <= |s| && (k < |s| ==> !IsOperator(s[k])) && forall i :: 0 <= i < k ==> IsOperator(s[i])
  {
    if s == "" || !IsOperator(s[0]) then 0 else 1 + OperatorPrefix(s[1..])
  }

  /** Reads a quoted name up to the first quote that is not doubled. */
  function Unquote(q: char, s: string): (r: Option<(string, string)>)
    ensures r.Some? ==> |r.value.1| < |s|
  {
    if s == "" then None
    else if s[0] != q then
      match Unquote(q, s[1..])
      case None => None
      case Some((name, rest)) => Some(([s[0]] + name, rest))
    else if |s| > 1 && s[1] == q then
      match Unquote(q, s[2..])
      case None => None
      case Some((name, rest)) => Some(([q] + name, rest))
    else Some(("", s[1..]))
  }

  function Cons(t: Token, rest: Option<seq<Token>>): Option<seq<Token>> {
    match rest
    case None => None
    case Some(ts) => Some([t] + ts)
  }

  function ConsKnown(t: Option<Token>, rest: Option<seq<Token>>): Option<seq<Token>> {
    if t.None? then None else Cons(t.value, rest)
  }

  function Lex(d: Dialect, s: string): Option<seq<Token>>
    decreases |s|
  {
    if s == "" then Some([])
    else if s[0] == ' ' then Lex(d, s[1..])
    else if s[0] == Delimiter(d) then
      match Unquote(s[0], s[1..])
      case None => None
      case Some((name, rest)) => Cons(Ident(name), Lex(d, rest))
    else if s[0] == '?' then Cons(Mark, Lex(d, s[1..]))
    else if s[0] == '$' then
      var k := DigitPrefix(s[1..]);
      if k == 0 then None else Cons(Param(Decimal.Value(s[1..][..k])), Lex(d, s[1..][k..]))
    else if IsDigit(s[0]) then
      var k := DigitPrefix(s);
      Cons(Num(Decimal.Value(s[..k])), Lex(d, s[k..]))
    else if IsLetter(s[0]) then
      var k := LetterPrefix(s);
      ConsKnown(KeywordOf(s[..k]), Lex(d, s[k..]))
    else if IsOperator(s[0]) then
      var k := OperatorPrefix(s);
      ConsKnown(OperatorOf(s[..k]), Lex(d, s[k..]))
    else ConsKnown(Punctuation(s[0]), Lex(d, s[1..]))
  }

  /** What a database takes the text to mean: "$i" names argument i, the i-th "?" is
      argument i. */
  function Bind(ts: seq<Token>, next: nat): seq<Token> {
    if ts == [] then []
    else if ts[0].Mark? then [Param(next)] + Bind(ts[1..], next + 1)
    else [ts[0]] + Bind(ts[1..], next)
  }

  function Read(d: Dialect, s: string): Option<seq<Token>> {
    match Lex(d, s)
    case None => None
    case Some(ts) => Some(Bind(ts, 1))
  }

  // ---------------------------------------------------------------- reading what was rendered

  /** Parameters occur in the order of their numbers, starting with `next`. */
  predicate InOrder(ts: seq<Token>, next: nat) {
    ts == [] ||
    (if ts[0].Param? then ts[0].i == next && InOrder(ts[1..], next + 1) else InOrder(ts[1..], next))
  }

  function Seen(d: Dialect, ts: seq<Token>): seq<Token> {
    if ts == [] then []
    else [if ts[0].Param? && !d.Postgres? then Mark else ts[0]] + Seen(d, ts[1..])
  }

  lemma {:induction false} UnquoteDoubled(q: char, name: string, rest: string)
    requires rest == "" || rest[0] != q
    ensures Unquote(q, Doubled(q, name) + [q] + rest) == Some((name, rest))
  {
    var s := Doubled(q, name) + [q] + rest;
    if name == "" {
      assert s[1..] == rest;
    } else {
      UnquoteDoubled(q, name[1..], rest);
      var t := Doubled(q, name[1..]) + [q] + rest;
      assert [name[0]] + name[1..] == name;
      if name[0] == q {
        assert s[2..] == t;
      } else {
        assert s[1..] == t;
      }
    }
  }

  lemma {:induction false} LetterPrefixOf(w: string, rest: string)
    requires (forall i :: 0 <= i < |w| ==> IsLetter(w[i])) && (rest == "" || !IsLetter(rest[0]))
    ensures LetterPrefix(w + rest) == |w|
  {
    if w == "" {
      assert w + rest == rest;
    } else {
      assert (w + rest)[1..] == w[1..] + rest;
      LetterPrefixOf(w[1..], rest);
    }
  }

  lemma {:induction false} OperatorPrefixOf(w: string, rest: string)
    requires (forall i :: 0 <= i < |w| ==> IsOperator(w[i])) && (rest == "" || !IsOperator(rest[0]))
    ensures OperatorPrefix(w + rest) == |w|
  {
    if w == "" {
      assert w + rest == rest;
    } else {
      assert (w + rest)[1..] == w[1..] + rest;
      OperatorPrefixOf(w[1..], rest);
    }
  }

  /** The characters that may follow a name, number, word or operator. */
  predicate Stops(rest: string) {
    rest == "" || rest[0] == ' ' || Punctuation(rest[0]).Some?
  }

  lemma LexIdent(d: Dialect, name: string, rest: string)
    requires Stops(rest)
    ensures Lex(d, Quote(d, name) + rest) == Cons(Ident(name), Lex(d, rest))
  {
    var q := QuoteChar(d);
    var s := Quote(d, name) + rest;
    assert s[1..] == Doubled(q, name) + [q] + rest;
    UnquoteDoubled(q, name, rest);
  }

  lemma NumberSplits(n: nat, rest: string)
    requires Stops(rest)
    ensures var s := Format(n) + rest;
      DigitPrefix(s) == |Format(n)| && s[..|Format(n)|] == Format(n) && s[|Format(n)|..] == rest
        && |Format(n)| > 0 && IsDigit(s[0]) && Decimal.Value(Format(n)) == n
  {
    FormatDigits(n);
    DigitPrefixOf(Format(n), rest);
  }

  lemma LexNumber(d: Dialect, n: nat, rest: string)
    requires Stops(rest)
    ensures Lex(d, Format(n) + rest) == Cons(Num(n), Lex(d, rest))
  {
    NumberSplits(n, rest);
  }

  lemma LexNumbered(d: Dialect, n: nat, rest: string)
    requires Stops(rest)
    ensures Lex(d, "$" + Format(n) + rest) == Cons(Param(n), Lex(d, rest))
  {
    NumberSplits(n, rest);
    var s := "$" + Format(n) + rest;
    assert s[0] == '$' && s[1..] == Format(n) + rest;
  }

  lemma SpeltInLetters(k: Keyword)
    ensures |Spelling(k)| > 0 && forall i :: 0 <= i < |Spelling(k)| ==> IsLetter(Spelling(k)[i])
  {
  }

  lemma KeywordRoundTrip(k: Keyword)
    ensures KeywordOf(Spelling(k)) == Some(Word(k))
  {
  }

  lemma LexLetters(d: Dialect, w: string, rest: string)
    requires Stops(rest) && |w| > 0 && forall i :: 0 <= i < |w| ==> IsLetter(w[i])
    ensures Lex(d, w + rest) == ConsKnown(KeywordOf(w), Lex(d, rest))
  {
    LetterPrefixOf(w, rest);
    var s := w + rest;
    assert s[0] == w[0] && s[..|w|] == w && s[|w|..] == rest;
  }

  lemma LexWord(d: Dialect, k: Keyword, rest: string)
    requires Stops(rest)
    ensures Lex(d, Spelling(k) + rest) == Cons(Word(k), Lex(d, rest))
  {
    SpeltInLetters(k);
    LexLetters(d, Spelling(k), rest);
    KeywordRoundTrip(k);
  }

  lemma LexOperators(d: Dialect, w: string, rest: string)
    requires Stops(rest) && |w| > 0 && forall i :: 0 <= i < |w| ==> IsOperator(w[i])
    ensures Lex(d, w + rest) == ConsKnown(OperatorOf(w), Lex(d, rest))
  {
    hide OperatorOf;
    OperatorPrefixOf(w, rest);
    var s := w + rest;
    assert s[0] == w[0] && s[..|w|] == w && s[|w|..] == rest;
  }

  lemma OperatorRoundTrip(op: Comparison)
    ensures OperatorOf(Symbol(op)) == Some(Op(op))
    ensures |Symbol(op)| > 0 && forall i :: 0 <= i < |Symbol(op)| ==> IsOperator(Symbol(op)[i])
  {
  }

  lemma LexOperator(d: Dialect, op: Comparison, rest: string)
    requires Stops(rest)
    ensures Lex(d, Symbol(op) + rest) == Cons(Op(op), Lex(d, rest))
  {
    hide Symbol, OperatorOf, Lex, IsOperator;
    OperatorRoundTrip(op);
    LexOperators(d, Symbol(op), rest);
  }

  lemma LexPunctuation(d: Dialect, c: char, rest: string)
    requires Punctuation(c).Some?
    ensures Lex(d, [c] + rest) == Cons(Punctuation(c).value, Lex(d, rest))
  {
    assert ([c] + rest)[1..] == rest;
  }

  lemma LexToken(d: Dialect, t: Token, rest: string)
    requires !t.Mark? && (Stops(rest) || t.LeftBracket?)
    ensures Lex(d, Spell(d, t) + rest) == Cons(Seen(d, [t])[0], Lex(d, rest))
  {
    match t
    case Ident(name) => LexIdent(d, name, rest);
    case Num(n) => LexNumber(d, n, rest);
    case Word(k) => LexWord(d, k, rest);
    case Op(op) => LexOperator(d, op, rest);
    case LeftBracket => LexPunctuation(d, '(', rest);
    case RightBracket => LexPunctuation(d, ')', rest);
    case Comma => LexPunctuation(d, ',', rest);
    case Star => LexPunctuation(d, '*', rest);
    case Param(i) =>
      if d.Postgres? {
        LexNumbered(d, i, rest);
        assert "$" + Format(i) + rest == Spell(d, t) + rest;
      } else {
        assert ("?" + rest)[1..] == rest;
      }
  }

  lemma SpellStops(d: Dialect, t: Token, rest: string)
    requires t.RightBracket? || t.Comma? || t.LeftBracket?
    ensures Stops(Spell(d, t) + rest)
  {
  }

  lemma {:induction false} LexRendered(d: Dialect, ts: Sql)
    requires Mark !in ts
    ensures Lex(d, Render(d, ts)) == Some(Seen(d, ts))
  {
    if |ts| == 1 {
      LexToken(d, ts[0], "");
      assert Spell(d, ts[0]) + "" == Spell(d, ts[0]);
      assert ts[1..] == [];
    } else if |ts| > 1 {
      LexRendered(d, ts[1..]);
      var tail := Render(d, ts[1..]);
      if Spaced(ts[0], ts[1]) {
        assert (" " + tail)[1..] == tail;
        LexToken(d, ts[0], " " + tail);
      } else {
        if !ts[0].LeftBracket? {
          var more := if |ts| == 2 then "" else tail[|Spell(d, ts[1])|..];
          assert tail == Spell(d, ts[1]) + more;
          SpellStops(d, ts[1], more);
        }
        assert "" + tail == tail;
        LexToken(d, ts[0], tail);
      }
    }
  }

  lemma {:induction false} BindNumbered(ts: seq<Token>, next: nat)
    requires Mark !in ts
    ensures Seen(Postgres, ts) == ts && Bind(ts, next) == ts
  {
    if ts != [] {
      BindNumbered(ts[1..], next);
      assert [ts[0]] + ts[1..] == ts;
    }
  }

  lemma {:induction false} BindPositional(d: Dialect, ts: seq<Token>, next: nat)
    requires !d.Postgres? && InOrder(ts, next) && Mark !in ts
    ensures Bind(Seen(d, ts), next) == ts
  {
    if ts != [] {
      BindPositional(d, ts[1..], if ts[0].Param? then next + 1 else next);
      assert Seen(d, ts)[1..] == Seen(d, ts[1..]);
      assert [ts[0]] + ts[1..] == ts;
    }
  }

  /** In every dialect the text reads back as the tokens it was written from, whatever the
      names quoted in it, and each placeholder stands for the argument of its number. */
  lemma ReadRendered(d: Dialect, ts: Sql)
    requires Mark !in ts && InOrder(ts, 1)
    ensures Read(d, Render(d, ts)) == Some(ts)
  {
    LexRendered(d, ts);
    if d.Postgres? {
      BindNumbered(ts, 1);
    } else {
      BindPositional(d, ts, 1);
    }
  }

  function Params(ts: seq<Token>): nat {
    if ts == [] then 0 else (if ts[0].Param? then 1 else 0) + Params(ts[1..])
  }

  lemma {:induction false} InOrderAppend(a: seq<Token>, b: seq<Token>, next: nat)
    requires InOrder(a, next) && InOrder(b, next + Params(a))
    ensures InOrder(a + b, next) && Params(a + b) == Params(a) + Params(b)
  {
    if a == [] {
      assert a + b == b;
    } else {
      assert (a + b)[1..] == a[1..] + b;
      InOrderAppend(a[1..], b, if a[0].Param? then next + 1 else next);
    }
  }
}

/** The rows a built statement selects and writes, against the in-memory adapter. */
module SqlRows {
  import opened Wrappers
  import opened Conditions
  import opened SqlEngine
  import opened SqlMeaning

  /** A database row, by column name. */
  type SqlRow = map<string, Value>

  function Cell(row: SqlRow, col: string): Value {
    if col in row then row[col] else Nil
  }

  function Arg(args: seq<Value>, i: nat): Value {
    if 1 <= i <= |args| then args[i - 1] else Nil
  }

  predicate SqlLess(a: Value, b: Value) {
    match (a, b)
    case (Str(s), Str(t)) => TextLess(s, t)
    case (Int(x), Int(y)) => x < y
    case (Time(x), Time(y)) => x < y
    case (Bool(x), Bool(y)) => !x && y
    case _ => false
  }

  predicate SqlCompare(op: Comparison, a: Value, b: Value) {
    a != Nil && b != Nil &&
    match op
    case Eq => a == b
    case Ne => a != b
    case Lt => SqlLess(a, b)
    case Lte => SqlLess(a, b) || a == b
    case Gt => SqlLess(b, a)
    case Gte => SqlLess(b, a) || a == b
  }

  predicate Holds(row: SqlRow, args: seq<Value>, p: Pred) {
    match p
    case Cmp(col, op, i) => SqlCompare(op, Cell(row, col), Arg(args, i))
    case Similar(_, _) => false  // pattern matching is not part of this model
    case OneOf(col, ns) => exists k | 0 <= k < |ns| :: SqlCompare(Eq, Cell(row, col), Arg(args, ns[k]))
    case Null(col) => Cell(row, col).Nil?
    case NotNull(col) => !Cell(row, col).Nil?
    case Never => false
  }

  predicate AllHold(row: SqlRow, args: seq<Value>, ps: seq<Pred>) {
    forall k | 0 <= k < |ps| :: Holds(row, args, ps[k])
  }

  // ---------------------------------------------------------------- when the two agree

  /** Scalars of one type: strings that do not parse as instants, integers that float64
      represents, instants, booleans. */
  predicate Comparable(c: Clock, a: Value, b: Value) {
    match (a, b)
    case (Str(s), Str(t)) => c.parse(s).None? && c.parse(t).None?
    case (Int(x), Int(y)) => -TWO53 <= x <= TWO53 && -TWO53 <= y <= TWO53
    case (Time(_), Time(_)) => true
    case (Bool(_), Bool(_)) => true
    case _ => false
  }

  predicate Supported(c: Clock, row: Row, cond: Condition) {
    match cond
    case Compare(f, _, v) => f in row && Comparable(c, row[f], v)
    case In(f, vs) => f in row && forall i | 0 <= i < |vs| :: Comparable(c, row[f], vs[i])
    case Like(_, _) => false
    case IsNull(_) => true
    case IsNotNull(_) => true
  }

  lemma CompareAgrees(c: Clock, a: Value, b: Value)
    requires Comparable(c, a, b)
    ensures a != Nil && b != Nil
    ensures MatchEqual(c, a, b) <==> a == b
    ensures MatchLess(c, a, b) <==> SqlLess(a, b)
    ensures MatchGreater(c, a, b) <==> SqlLess(b, a)
  {
    match (a, b)
    case (Int(x), Int(y)) =>
      SmallHaveNoExcess(x);
      SmallHaveNoExcess(y);
    case (Bool(x), Bool(y)) => assert "true"[0] == 't' && "false"[0] == 'f';
    case _ =>
  }

  /** Memory and SQL agree on the equality of all integers up to a bound exactly when the bound
      is at most 2^53. */
  lemma IntegersAgreeUpTo(c: Clock, bound: nat)
    ensures bound <= TWO53 <==>
      forall x, y :: UpTo(bound, x) && UpTo(bound, y) ==>
        (MatchEqual(c, Int(x), Int(y)) <==> SqlCompare(Eq, Int(x), Int(y)))
  {
    EqualityUpTo(c, bound);
    hide MatchEqual;
    if forall x, y :: UpTo(bound, x) && UpTo(bound, y) ==>
        (MatchEqual(c, Int(x), Int(y)) <==> SqlCompare(Eq, Int(x), Int(y))) {
      forall x, y | UpTo(bound, x) && UpTo(bound, y)
        ensures MatchEqual(c, Int(x), Int(y)) <==> x == y
      {
        assert SqlCompare(Eq, Int(x), Int(y)) <==> x == y;
      }
    }
  }

  /** The same data of these fields under field names and under column names. */
  predicate Corresponds(m: Model, fs: set<string>, row: Row, sql: SqlRow) {
    forall f :: f in fs ==> Cell(sql, m.Column(f)) == if f in row then row[f] else Nil
  }

  predicate FieldsOf(fs: set<string>, where: seq<Condition>) {
    forall i :: 0 <= i < |where| ==> where[i].field in fs
  }

  /** The arguments of a condition stand where its placeholders point. */
  predicate Placed(args: seq<Value>, start: nat, own: seq<Value>) {
    start >= 1 && start - 1 + |own| <= |args| && args[start - 1..start - 1 + |own|] == own
  }

  lemma {:induction false} NumbersAt(start: nat, n: nat, k: nat)
    requires k < n
    ensures |Numbers(start, n)| == n && Numbers(start, n)[k] == start + k
    decreases n
  {
    if n > 1 {
      NumbersAt(start + 1, n - 1, if k > 0 then k - 1 else 0);
    }
  }

  lemma InAgrees(c: Clock, m: Model, fs: set<string>, row: Row, sql: SqlRow, cond: Condition, start: nat,
                 args: seq<Value>)
    requires cond.In? && cond.field in fs && Supported(c, row, cond) && Corresponds(m, fs, row, sql)
    requires Placed(args, start, cond.vs)
    ensures Holds(sql, args, PredOf(m, cond, start)) <==> Matches(c, row, cond)
  {
    var v, vs := row[cond.field], cond.vs;
    assert Cell(sql, m.Column(cond.field)) == v;
    forall k | 0 <= k < |vs|
      ensures |Numbers(start, |vs|)| == |vs|
      ensures MatchEqual(c, v, vs[k]) <==> SqlCompare(Eq, v, Arg(args, Numbers(start, |vs|)[k]))
    {
      NumbersAt(start, |vs|, k);
      assert Arg(args, start + k) == args[start - 1..start - 1 + |vs|][k];
      CompareAgrees(c, v, vs[k]);
    }
    if Matches(c, row, cond) {
      var k :| 0 <= k < |vs| && MatchEqual(c, v, vs[k]);
      assert SqlCompare(Eq, v, Arg(args, Numbers(start, |vs|)[k]));
    }
    if Holds(sql, args, PredOf(m, cond, start)) {
      var k :| 0 <= k < |Numbers(start, |vs|)| && SqlCompare(Eq, v, Arg(args, Numbers(start, |vs|)[k]));
      NumbersAt(start, |vs|, 0);
      assert MatchEqual(c, v, vs[k]);
    }
  }

  lemma CondAgrees(c: Clock, m: Model, fs: set<string>, row: Row, sql: SqlRow, cond: Condition, start: nat,
                   args: seq<Value>)
    requires cond.field in fs && Supported(c, row, cond) && Corresponds(m, fs, row, sql)
    requires Placed(args, start, CondArgs(cond))
    ensures Holds(sql, args, PredOf(m, cond, start)) <==> Matches(c, row, cond)
  {
    assert Cell(sql, m.Column(cond.field)) == if cond.field in row then row[cond.field] else Nil;
    match cond
    case In(_, _) => InAgrees(c, m, fs, row, sql, cond, start, args);
    case Compare(f, op, v) =>
      assert Arg(args, start) == args[start - 1..start][0] == v;
      CompareAgrees(c, row[f], v);
    case _ =>
  }

  lemma PlacedSplit(args: seq<Value>, start: nat, own: seq<Value>, more: seq<Value>)
    requires Placed(args, start, own + more)
    ensures Placed(args, start, own) && Placed(args, start + |own|, more)
  {
    var whole := args[start - 1..start - 1 + |own + more|];
    assert own == whole[..|own|] && more == whole[|own|..];
  }

  lemma AllHoldCons(row: SqlRow, args: seq<Value>, p: Pred, ps: seq<Pred>)
    ensures AllHold(row, args, [p] + ps) <==> Holds(row, args, p) && AllHold(row, args, ps)
  {
    var all := [p] + ps;
    assert all[0] == p;
    assert forall k :: 0 <= k < |ps| ==> all[k + 1] == ps[k];
    if Holds(row, args, p) && AllHold(row, args, ps) {
      forall k | 0 <= k < |all| ensures Holds(row, args, all[k]) {
        if k > 0 { assert all[k] == ps[k - 1]; }
      }
    }
  }

  lemma MatchCons(c: Clock, row: Row, where: seq<Condition>)
    requires where != []
    ensures MatchConditions(c, row, where) <==> Matches(c, row, where[0]) && MatchConditions(c, row, where[1..])
  {
    assert forall k :: 0 <= k < |where| - 1 ==> where[k + 1] == where[1..][k];
    if Matches(c, row, where[0]) && MatchConditions(c, row, where[1..]) {
      forall k | 0 <= k < |where| ensures Matches(c, row, where[k]) {
        if k > 0 { assert where[k] == where[1..][k - 1]; }
      }
    }
  }

  /** Bound to any arguments that follow those of the SET clause, the built conditions select
      exactly the rows that the in-memory conditions match. */
  lemma {:induction false} SameRowsSelected(c: Clock, m: Model, fs: set<string>, row: Row, sql: SqlRow,
                                            where: seq<Condition>, start: nat, args: seq<Value>)
    requires Corresponds(m, fs, row, sql) && FieldsOf(fs, where) && Placed(args, start, AllArgs(where))
    requires forall i :: 0 <= i < |where| ==> Supported(c, row, where[i])
    ensures AllHold(sql, args, PredsOf(m, where, start)) <==> MatchConditions(c, row, where)
    decreases |where|
  {
    hide Holds, Matches, Supported, Corresponds, Placed, PredOf;
    if where != [] {
      var p, next := PredOf(m, where[0], start), start + |CondArgs(where[0])|;
      var ps := PredsOf(m, where[1..], next);
      assert PredsOf(m, where, start) == [p] + ps;
      PlacedSplit(args, start, CondArgs(where[0]), AllArgs(where[1..]));
      assert Holds(sql, args, p) <==> Matches(c, row, where[0]) by {
        CondAgrees(c, m, fs, row, sql, where[0], start, args);
      }
      SameRowsSelected(c, m, fs, row, sql, where[1..], next, args);
      AllHoldCons(sql, args, p, ps);
      MatchCons(c, row, where);
    }
  }

  // ---------------------------------------------------------------- writing rows

  /** No two of these fields share a column. */
  predicate DistinctColumns(m: Model, fs: set<string>) {
    forall f, g :: f in fs && g in fs && m.Column(f) == m.Column(g) ==> f == g
  }

  predicate Sets(fs: set<string>, update: Assignments) {
    forall i :: 0 <= i < |update| ==> update[i].0 in fs
  }

  /** row[k] = v for every entry of the update. */
  function Written(row: Row, update: Assignments): Row
    decreases |update|
  {
    if update == [] then row else Written(row[update[0].0 := update[0].1], update[1..])
  }

  function SqlWritten(row: SqlRow, sets: seq<(string, nat)>, args: seq<Value>): SqlRow
    decreases |sets|
  {
    if sets == [] then row else SqlWritten(row[sets[0].0 := Arg(args, sets[0].1)], sets[1..], args)
  }

  /** The SET clause writes to each row what the in-memory update writes. */
  lemma {:induction false} SameRowsWritten(m: Model, fs: set<string>, row: Row, sql: SqlRow, update: Assignments,
                                           start: nat, args: seq<Value>)
    requires DistinctColumns(m, fs) && Corresponds(m, fs, row, sql) && Sets(fs, update)
    requires Placed(args, start, SetArgs(update))
    ensures Corresponds(m, fs, Written(row, update), SqlWritten(sql, SetsOf(m, update, start), args))
    decreases |update|
  {
    if update != [] {
      var (f, v) := update[0];
      PlacedSplit(args, start, [v], SetArgs(update[1..]));
      assert Arg(args, start) == args[start - 1..start][0] == v;
      var row', sql' := row[f := v], sql[m.Column(f) := v];
      forall g | g in fs ensures Cell(sql', m.Column(g)) == if g in row' then row'[g] else Nil {
        assert Cell(sql, m.Column(g)) == if g in row then row[g] else Nil;
      }
      SameRowsWritten(m, fs, row', sql', update[1..], start + 1, args);
      var sets := SetsOf(m, update, start);
      assert sets[0] == (m.Column(f), start) && sets[1..] == SetsOf(m, update[1..], start + 1);
    }
  }

  /** UPDATE as a whole: under the argument list that the engine builds, the statement changes
      a row if and only if the in-memory adapter does, and to the same values, whatever the
      columns of the model's fields are called. */
  lemma UpdateAgrees(c: Clock, m: Model, fs: set<string>, row: Row, sql: SqlRow, where: seq<Condition>,
                     update: Assignments)
    requires DistinctColumns(m, fs) && Corresponds(m, fs, row, sql) && FieldsOf(fs, where) && Sets(fs, update)
    requires forall i :: 0 <= i < |where| ==> Supported(c, row, where[i])
    ensures var args := SetArgs(update) + AllArgs(where);
      && (AllHold(sql, args, PredsOf(m, where, |update| + 1)) <==> MatchConditions(c, row, where))
      && Corresponds(m, fs, Written(row, update), SqlWritten(sql, SetsOf(m, update, 1), args))
  {
    var args := SetArgs(update) + AllArgs(where);
    LengthOfArgs(update);
    assert args[0..|update|] == SetArgs(update);
    assert args[|update|..|update| + |AllArgs(where)|] == AllArgs(where);
    SameRowsSelected(c, m, fs, row, sql, where, |update| + 1, args);
    SameRowsWritten(m, fs, row, sql, update, 1, args);
  }

  lemma {:induction false} LengthOfArgs(update: Assignments)
    ensures |SetArgs(update)| == |update|
  {
    if update != [] { LengthOfArgs(update[1..]); }
  }

  /** A row as stored: each field under its column. */
  function Stored(m: Model, fs: set<string>, row: Row): SqlRow
    requires DistinctColumns(m, fs)
  {
    map f | f in fs && f in row :: m.Column(f) := row[f]
  }

  /** Every row of every model, renamed columns or not, has a stored counterpart. */
  lemma EveryRowCorresponds(m: Model, fs: set<string>, row: Row)
    requires DistinctColumns(m, fs)
    ensures Corresponds(m, fs, row, Stored(m, fs, row))
  {
    var sql := Stored(m, fs, row);
    forall f | f in fs ensures Cell(sql, m.Column(f)) == if f in row then row[f] else Nil {
      if m.Column(f) in sql {
        var g :| g in fs && g in row && m.Column(g) == m.Column(f) && sql[m.Column(f)] == row[g];
        assert g == f;
      } else {
        assert f !in row;
      }
    }
  }

  /** Distinct columns are needed: where two fields share one, setting the first sets the second
      in the database and not in memory. */
  lemma SharedColumnDisagrees(m: Model, fs: set<string>, f: string, g: string, v: Value)
    requires f in fs && g in fs && f != g && m.Column(f) == m.Column(g) && v != Nil
    ensures var update := [(f, v)];
      && Corresponds(m, fs, map[], map[]) && Sets(fs, update)
      && !Corresponds(m, fs, Written(map[], update), SqlWritten(map[], SetsOf(m, update, 1), SetArgs(update)))
  {
    var update := [(f, v)];
    assert update[1..] == [];
    var sets := SetsOf(m, update, 1);
    assert SetsOf(m, update[1..], 2) == [];
    assert sets == [(m.Column(f), 1)];
    assert sets[1..] == [];
    var row, sql: SqlRow := map[f := v], map[m.Column(f) := v];
    assert Written(map[], update) == Written(row, []) == row;
    assert SetArgs(update) == [v];
    assert SqlWritten(map[], sets, SetArgs(update)) == SqlWritten(sql, [], SetArgs(update)) == sql;
    assert Cell(sql, m.Column(g)) == v;
  }
}

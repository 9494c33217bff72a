/** The statement builder of adapter/sql/engine.go, and what the built statements mean. */
module SqlEngine {
  import opened Wrappers
  import opened Conditions
  import opened SqlText

  /** A model: its table and the column of each field that has one of its own. */
  datatype Model = Model(table: string, columns: map<string, string>) {
    function Column(field: string): string {
      if field in columns then columns[field] else field
    }
  }

  datatype Query = Query(where: seq<Condition>, limit: int, offset: int, sortBy: string, desc: bool)

  // ---------------------------------------------------------------- statements as tokens

  /** n placeholders from `start`, separated by commas. */
  function ParamList(start: nat, n: nat): Sql
    decreases n
  {
    if n == 0 then []
    else if n == 1 then [Param(start)]
    else [Param(start), Comma] + ParamList(start + 1, n - 1)
  }

  function CondText(m: Model, c: Condition, start: nat): Sql {
    var col := Ident(m.Column(c.field));
    match c
    case IsNull(_) => [col, Word(IS), Word(NULL)]
    case IsNotNull(_) => [col, Word(IS), Word(NOT), Word(NULL)]
    case In(_, vs) =>
      if vs == [] then [Num(1), Op(Eq), Num(0)]
      else [col, Word(IN), LeftBracket] + (ParamList(start, |vs|) + [RightBracket])
    case Like(_, _) => [col, Word(LIKE), Param(start)]
    case Compare(_, op, _) => [col, Op(op), Param(start)]
  }

  function CondArgs(c: Condition): seq<Value> {
    match c
    case IsNull(_) => []
    case IsNotNull(_) => []
    case In(_, vs) => vs
    case Like(_, v) => [v]
    case Compare(_, _, v) => [v]
  }

  function AllText(m: Model, where: seq<Condition>, start: nat): Sql
    decreases |where|
  {
    if where == [] then []
    else if |where| == 1 then CondText(m, where[0], start)
    else CondText(m, where[0], start) + ([Word(AND)] + AllText(m, where[1..], start + |CondArgs(where[0])|))
  }

  function AllArgs(where: seq<Condition>): seq<Value> {
    if where == [] then [] else CondArgs(where[0]) + AllArgs(where[1..])
  }

  function WhereText(m: Model, where: seq<Condition>, start: nat): Sql {
    if where == [] then [] else [Word(WHERE)] + AllText(m, where, start)
  }

  function OrderText(m: Model, q: Query): Sql {
    if q.sortBy == "" then []
    else [Word(ORDER), Word(BY), Ident(m.Column(q.sortBy)), Word(if q.desc then DESC else ASC)]
  }

  function LimitText(q: Query): Sql {
    (if q.limit > 0 then [Word(LIMIT), Num(q.limit)] else [])
    + (if q.offset > 0 then [Word(OFFSET), Num(q.offset)] else [])
  }

  function SelectText(m: Model, q: Query): Sql {
    [Word(SELECT), Star, Word(FROM), Ident(m.table)]
    + (WhereText(m, q.where, 1) + (OrderText(m, q) + LimitText(q)))
  }

  function DeleteText(m: Model, where: seq<Condition>): Sql {
    [Word(DELETE), Word(FROM), Ident(m.table)] + WhereText(m, where, 1)
  }

  function CountText(m: Model, where: seq<Condition>): Sql {
    [Word(SELECT), Word(COUNT), LeftBracket, Star, RightBracket, Word(FROM), Ident(m.table)]
    + WhereText(m, where, 1)
  }

  /** A map of column values in the order Go happens to iterate it. */
  type Assignments = seq<(string, Value)>

  function Assignment(m: Model, a: (string, Value), i: nat): Sql {
    [Ident(m.Column(a.0)), Op(Eq), Param(i)]
  }

  function SetText(m: Model, update: Assignments, start: nat): Sql
    decreases |update|
  {
    if update == [] then []
    else if |update| == 1 then Assignment(m, update[0], start)
    else Assignment(m, update[0], start) + ([Comma] + SetText(m, update[1..], start + 1))
  }

  function SetArgs(update: Assignments): seq<Value> {
    if update == [] then [] else [update[0].1] + SetArgs(update[1..])
  }

  function UpdateText(m: Model, where: seq<Condition>, update: Assignments): Sql {
    [Word(UPDATE), Ident(m.table), Word(SET)] + (SetText(m, update, 1) + WhereText(m, where, |update| + 1))
  }

  function ColumnList(m: Model, data: Assignments): Sql {
    if data == [] then []
    else if |data| == 1 then [Ident(m.Column(data[0].0))]
    else [Ident(m.Column(data[0].0)), Comma] + ColumnList(m, data[1..])
  }

  function InsertText(m: Model, data: Assignments): Sql {
    [Word(INSERT), Word(INTO), Ident(m.table), LeftBracket]
    + (ColumnList(m, data) + ([RightBracket, Word(VALUES), LeftBracket] + (ParamList(1, |data|) + [RightBracket])))
  }

  // ---------------------------------------------------------------- the builder

  /** strings.Join. */
  function Join(parts: seq<Sql>, sep: Sql): Sql {
    if parts == [] then [] else if |parts| == 1 then parts[0] else parts[0] + (sep + Join(parts[1..], sep))
  }

  const SEPARATOR: Sql := [Comma]
  const CONJUNCTION: Sql := [Word(AND)]

  lemma {:induction false} JoinPlaceholders(parts: seq<Sql>, start: nat)
    requires forall k :: 0 <= k < |parts| ==> parts[k] == [Param(start + k)]
    ensures Join(parts, SEPARATOR) == ParamList(start, |parts|)
  {
    if |parts| > 1 {
      JoinPlaceholders(parts[1..], start + 1);
    }
  }

  lemma {:induction false} AllArgsSnoc(where: seq<Condition>, k: nat)
    requires k < |where|
    ensures AllArgs(where[..k + 1]) == AllArgs(where[..k]) + CondArgs(where[k])
    decreases |where|
  {
    if k == 0 {
      assert where[..1][1..] == [];
    } else {
      AllArgsSnoc(where[1..], k - 1);
      assert where[..k + 1][1..] == where[1..][..k] && where[..k][1..] == where[1..][..k - 1];
    }
  }

  /** The number of the first placeholder of condition k. */
  function StartOf(where: seq<Condition>, start: nat, k: nat): nat
    requires k <= |where|
  {
    start + |AllArgs(where[..k])|
  }

  lemma StartOfTail(where: seq<Condition>, start: nat, k: nat)
    requires k < |where|
    ensures StartOf(where, start, k + 1) == StartOf(where[1..], start + |CondArgs(where[0])|, k)
  {
    assert where[..k + 1][1..] == where[1..][..k];
  }

  ghost predicate AreClauses(m: Model, where: seq<Condition>, start: nat, clauses: seq<Sql>) {
    |clauses| <= |where|
      && forall k :: 0 <= k < |clauses| ==> clauses[k] == CondText(m, where[k], StartOf(where, start, k))
  }

  lemma {:induction false} JoinClauses(m: Model, where: seq<Condition>, start: nat, clauses: seq<Sql>)
    requires AreClauses(m, where, start, clauses) && |clauses| == |where|
    ensures Join(clauses, CONJUNCTION) == AllText(m, where, start)
    decreases |where|
  {
    if where != [] {
      assert StartOf(where, start, 0) == start by { assert where[..0] == []; }
      if |where| > 1 {
        var next := start + |CondArgs(where[0])|;
        forall k | 0 <= k < |where| - 1
          ensures clauses[1..][k] == CondText(m, where[1..][k], StartOf(where[1..], next, k))
        {
          StartOfTail(where, start, k);
        }
        JoinClauses(m, where[1..], next, clauses[1..]);
      }
    }
  }

  lemma {:induction false} SetArgsSnoc(update: Assignments, k: nat)
    requires k < |update|
    ensures SetArgs(update[..k + 1]) == SetArgs(update[..k]) + [update[k].1]
    decreases |update|
  {
    if k == 0 {
      assert update[..1][1..] == [];
    } else {
      SetArgsSnoc(update[1..], k - 1);
      assert update[..k + 1][1..] == update[1..][..k] && update[..k][1..] == update[1..][..k - 1];
    }
  }

  lemma {:induction false} JoinAssignments(m: Model, update: Assignments, start: nat, parts: seq<Sql>)
    requires |parts| == |update|
    requires forall k :: 0 <= k < |parts| ==> parts[k] == Assignment(m, update[k], start + k)
    ensures Join(parts, SEPARATOR) == SetText(m, update, start)
    decreases |update|
  {
    if |update| > 1 {
      JoinAssignments(m, update[1..], start + 1, parts[1..]);
    }
  }

  method BuildCondition(m: Model, c: Condition, startIdx: nat) returns (clause: Sql, args: seq<Value>)
    ensures clause == CondText(m, c, startIdx) && args == CondArgs(c)
  {
    var quotedCol: Sql := [Ident(m.Column(c.field))];
    match c
    case IsNull(_) => return quotedCol + [Word(IS), Word(NULL)], [];
    case IsNotNull(_) => return quotedCol + [Word(IS), Word(NOT), Word(NULL)], [];
    case In(_, vs) =>
      if |vs| == 0 {
        return [Num(1), Op(Eq), Num(0)], [];
      }
      var placeholders: seq<Sql> := [];
      args := [];
      for i := 0 to |vs|
        invariant |placeholders| == i && args == vs[..i]
        invariant forall k :: 0 <= k < i ==> placeholders[k] == [Param(startIdx + k)]
      {
        placeholders := placeholders + [[Param(startIdx + i)]];
        args := args + [vs[i]];
      }
      JoinPlaceholders(placeholders, startIdx);
      return quotedCol + [Word(IN), LeftBracket] + (Join(placeholders, SEPARATOR) + [RightBracket]), args;
    case Like(_, v) => return quotedCol + [Word(LIKE), Param(startIdx)], [v];
    case Compare(_, op, v) => return quotedCol + [Op(op), Param(startIdx)], [v];
  }

  /** The clause loop every statement with conditions runs. */
  method BuildWhere(m: Model, where: seq<Condition>, startIdx: nat) returns (text: Sql, args: seq<Value>)
    ensures text == WhereText(m, where, startIdx) && args == AllArgs(where)
  {
    text, args := [], [];
    if |where| > 0 {
      var whereClauses: seq<Sql> := [];
      var argIdx := startIdx;
      for k := 0 to |where|
        invariant |whereClauses| == k && args == AllArgs(where[..k])
        invariant argIdx == StartOf(where, startIdx, k)
        invariant AreClauses(m, where, startIdx, whereClauses)
      {
        var clause, newArgs := BuildCondition(m, where[k], argIdx);
        AllArgsSnoc(where, k);
        whereClauses := whereClauses + [clause];
        args := args + newArgs;
        argIdx := argIdx + |newArgs|;
      }
      assert where[..|where|] == where;
      JoinClauses(m, where, startIdx, whereClauses);
      text := [Word(WHERE)] + Join(whereClauses, CONJUNCTION);
    }
  }

  method FindMany(m: Model, q: Query) returns (text: Sql, args: seq<Value>)
    ensures text == SelectText(m, q) && args == AllArgs(q.where)
  {
    var where;
    where, args := BuildWhere(m, q.where, 1);
    var order: Sql := [];
    if q.sortBy != "" {
      order := [Word(ORDER), Word(BY), Ident(m.Column(q.sortBy))];
      if q.desc {
        order := order + [Word(DESC)];
      } else {
        order := order + [Word(ASC)];
      }
    }
    var bounds: Sql := [];
    if q.limit > 0 {
      bounds := [Word(LIMIT), Num(q.limit)];
    }
    if q.offset > 0 {
      bounds := bounds + [Word(OFFSET), Num(q.offset)];
    }
    assert order == OrderText(m, q) && bounds == LimitText(q);
    text := [Word(SELECT), Star, Word(FROM), Ident(m.table)] + (where + (order + bounds));
  }

  /** No statement at all when there is nothing to set. */
  method Update(m: Model, where: seq<Condition>, update: Assignments) returns (stmt: Option<(Sql, seq<Value>)>)
    ensures stmt ==
      if update == [] then None else Some((UpdateText(m, where, update), SetArgs(update) + AllArgs(where)))
  {
    if |update| == 0 {
      return None;
    }
    var setClauses: seq<Sql> := [];
    var args: seq<Value> := [];
    var argIdx := 1;
    for k := 0 to |update|
      invariant |setClauses| == k && args == SetArgs(update[..k]) && argIdx == k + 1
      invariant forall j :: 0 <= j < k ==> setClauses[j] == Assignment(m, update[j], 1 + j)
    {
      var colName := m.Column(update[k].0);
      setClauses := setClauses + [[Ident(colName), Op(Eq), Param(argIdx)]];
      SetArgsSnoc(update, k);
      args := args + [update[k].1];
      argIdx := argIdx + 1;
    }
    assert update[..|update|] == update;
    JoinAssignments(m, update, 1, setClauses);
    var clause, newArgs := BuildWhere(m, where, argIdx);
    var text := [Word(UPDATE), Ident(m.table), Word(SET)] + (Join(setClauses, SEPARATOR) + clause);
    return Some((text, args + newArgs));
  }

  method Delete(m: Model, where: seq<Condition>) returns (text: Sql, args: seq<Value>)
    ensures text == DeleteText(m, where) && args == AllArgs(where)
  {
    var clause;
    clause, args := BuildWhere(m, where, 1);
    text := [Word(DELETE), Word(FROM), Ident(m.table)] + clause;
  }

  method Count(m: Model, where: seq<Condition>) returns (text: Sql, args: seq<Value>)
    ensures text == CountText(m, where) && args == AllArgs(where)
  {
    var clause;
    clause, args := BuildWhere(m, where, 1);
    text := [Word(SELECT), Word(COUNT), LeftBracket, Star, RightBracket, Word(FROM), Ident(m.table)]
      + clause;
  }

  method Create(m: Model, data: Assignments) returns (text: Sql, args: seq<Value>)
    ensures text == InsertText(m, data) && args == SetArgs(data)
  {
    var cols: seq<Sql>, placeholders: seq<Sql> := [], [];
    args := [];
    var argIdx := 1;
    for k := 0 to |data|
      invariant |cols| == |placeholders| == k && args == SetArgs(data[..k]) && argIdx == k + 1
      invariant forall j :: 0 <= j < k ==> cols[j] == [Ident(m.Column(data[j].0))] && placeholders[j] == [Param(1 + j)]
    {
      SetArgsSnoc(data, k);
      cols := cols + [[Ident(m.Column(data[k].0))]];
      placeholders := placeholders + [[Param(argIdx)]];
      args := args + [data[k].1];
      argIdx := argIdx + 1;
    }
    assert data[..|data|] == data;
    JoinColumns(m, data, cols);
    JoinPlaceholders(placeholders, 1);
    text := [Word(INSERT), Word(INTO), Ident(m.table), LeftBracket]
      + (Join(cols, SEPARATOR)
          + ([RightBracket, Word(VALUES), LeftBracket] + (Join(placeholders, SEPARATOR) + [RightBracket])));
  }

  lemma {:induction false} JoinColumns(m: Model, data: Assignments, cols: seq<Sql>)
    requires |cols| == |data| && forall k :: 0 <= k < |cols| ==> cols[k] == [Ident(m.Column(data[k].0))]
    ensures Join(cols, SEPARATOR) == ColumnList(m, data)
    decreases |data|
  {
    if |data| > 1 {
      JoinColumns(m, data[1..], cols[1..]);
    }
  }

}

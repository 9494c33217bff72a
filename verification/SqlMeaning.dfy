/** What SQL text means, read back by a small parser; the statements built by the engine mean
    what was asked for in every dialect, and their conditions select the rows that the
    in-memory adapter selects. */
module SqlMeaning {
  import opened Wrappers
  import opened Conditions
  import opened SqlText
  import opened SqlEngine

  // ---------------------------------------------------------------- what a statement means

  /** A parsed condition; numbers refer to arguments. */
  datatype Pred =
    | Cmp(col: string, op: Comparison, arg: nat)
    | Similar(col: string, arg: nat)
    | OneOf(col: string, args: seq<nat>)
    | Null(col: string)
    | NotNull(col: string)
    | Never

  datatype Statement =
    | Select(table: string, where: seq<Pred>, order: Option<(string, bool)>, limit: Option<nat>, offset: Option<nat>)
    | CountRows(table: string, where: seq<Pred>)
    | DeleteRows(table: string, where: seq<Pred>)
    | UpdateRows(table: string, sets: seq<(string, nat)>, where: seq<Pred>)
    | InsertRow(table: string, cols: seq<string>, args: seq<nat>)

  /** The parameters of an IN list, up to its closing bracket. */
  function ParseParams(ts: seq<Token>): (r: Option<(seq<nat>, seq<Token>)>)
    ensures r.Some? ==> |r.value.1| < |ts|
    decreases |ts|
  {
    if |ts| < 2 || !ts[0].Param? then None
    else if ts[1] == RightBracket then Some(([ts[0].i], ts[2..]))
    else if ts[1] == Comma then
      match ParseParams(ts[2..])
      case None => None
      case Some((ps, rest)) => Some(([ts[0].i] + ps, rest))
    else None
  }

  function ParseCond(ts: seq<Token>): (r: Option<(Pred, seq<Token>)>)
    ensures r.Some? ==> |r.value.1| < |ts|
  {
    if |ts| < 3 then None
    else if ts[0] == Num(1) && ts[1] == Op(Eq) && ts[2] == Num(0) then Some((Never, ts[3..]))
    else if !ts[0].Ident? then None
    else if ts[1] == Word(IS) && ts[2] == Word(NULL) then Some((Null(ts[0].name), ts[3..]))
    else if ts[1] == Word(IS) && ts[2] == Word(NOT) && |ts| > 3 && ts[3] == Word(NULL) then
      Some((NotNull(ts[0].name), ts[4..]))
    else if ts[1] == Word(IN) && ts[2] == LeftBracket then
      match ParseParams(ts[3..])
      case None => None
      case Some((ps, rest)) => Some((OneOf(ts[0].name, ps), rest))
    else if ts[1] == Word(LIKE) && ts[2].Param? then Some((Similar(ts[0].name, ts[2].i), ts[3..]))
    else if ts[1].Op? && ts[2].Param? then Some((Cmp(ts[0].name, ts[1].op, ts[2].i), ts[3..]))
    else None
  }

  function ParseConds(ts: seq<Token>): (r: Option<(seq<Pred>, seq<Token>)>)
    ensures r.Some? ==> |r.value.1| < |ts|
    decreases |ts|
  {
    match ParseCond(ts)
    case None => None
    case Some((p, rest)) =>
      if rest == [] || rest[0] != Word(AND) then Some(([p], rest))
      else match ParseConds(rest[1..])
        case None => None
        case Some((ps, end)) => Some(([p] + ps, end))
  }

  function ParseWhere(ts: seq<Token>): Option<(seq<Pred>, seq<Token>)> {
    if ts == [] || ts[0] != Word(WHERE) then Some(([], ts)) else ParseConds(ts[1..])
  }

  /** The conditions that end a statement. */
  function ParseLastWhere(ts: seq<Token>): Option<seq<Pred>> {
    match ParseWhere(ts)
    case None => None
    case Some((ps, rest)) => if rest == [] then Some(ps) else None
  }

  /** ORDER BY, LIMIT and OFFSET; only PostgreSQL takes an offset without a limit. */
  function ParseTail(d: Dialect, table: string, where: seq<Pred>, ts: seq<Token>): Option<Statement> {
    var ordered := |ts| >= 4 && ts[0] == Word(ORDER) && ts[1] == Word(BY) && ts[2].Ident?
      && (ts[3] == Word(ASC) || ts[3] == Word(DESC));
    var order := if ordered then Some((ts[2].name, ts[3] == Word(DESC))) else None;
    var ts1 := if ordered then ts[4..] else ts;
    var limited := |ts1| >= 2 && ts1[0] == Word(LIMIT) && ts1[1].Num?;
    var limit := if limited then Some(ts1[1].n) else None;
    var ts2 := if limited then ts1[2..] else ts1;
    if ts2 == [] then Some(Select(table, where, order, limit, None))
    else if |ts2| == 2 && ts2[0] == Word(OFFSET) && ts2[1].Num? && (limited || d.Postgres?) then
      Some(Select(table, where, order, limit, Some(ts2[1].n)))
    else None
  }

  function ParseColumns(ts: seq<Token>): (r: Option<(seq<string>, seq<Token>)>)
    ensures r.Some? ==> |r.value.1| < |ts|
    decreases |ts|
  {
    if |ts| < 2 || !ts[0].Ident? then None
    else if ts[1] == RightBracket then Some(([ts[0].name], ts[2..]))
    else if ts[1] == Comma then
      match ParseColumns(ts[2..])
      case None => None
      case Some((cs, rest)) => Some(([ts[0].name] + cs, rest))
    else None
  }

  function ParseSets(ts: seq<Token>): (r: Option<(seq<(string, nat)>, seq<Token>)>)
    ensures r.Some? ==> |r.value.1| < |ts|
    decreases |ts|
  {
    if |ts| < 3 || !ts[0].Ident? || ts[1] != Op(Eq) || !ts[2].Param? then None
    else
      var one := (ts[0].name, ts[2].i);
      if |ts| > 3 && ts[3] == Comma then
        match ParseSets(ts[4..])
        case None => None
        case Some((sets, rest)) => Some(([one] + sets, rest))
      else Some(([one], ts[3..]))
  }

  /** Only MySQL has an insertion without columns. */
  function ParseInsert(d: Dialect, ts: seq<Token>): Option<Statement> {
    if |ts| < 3 || !ts[1].Ident? || ts[0] != Word(INTO) || ts[2] != LeftBracket then None
    else if ts[3..] == [RightBracket, Word(VALUES), LeftBracket, RightBracket] then
      if d == MySQL then Some(InsertRow(ts[1].name, [], [])) else None
    else match ParseColumns(ts[3..])
      case None => None
      case Some((cols, rest)) =>
        if |rest| < 2 || rest[0] != Word(VALUES) || rest[1] != LeftBracket then None
        else match ParseParams(rest[2..])
          case None => None
          case Some((args, end)) =>
            if end == [] && |cols| == |args| then Some(InsertRow(ts[1].name, cols, args)) else None
  }

  function ParseUpdate(ts: seq<Token>): Option<Statement> {
    if |ts| < 2 || !ts[0].Ident? || ts[1] != Word(SET) then None
    else match ParseSets(ts[2..])
      case None => None
      case Some((sets, rest)) =>
        match ParseLastWhere(rest)
        case None => None
        case Some(ps) => Some(UpdateRows(ts[0].name, sets, ps))
  }

  function ParseDelete(ts: seq<Token>): Option<Statement> {
    if |ts| < 2 || ts[0] != Word(FROM) || !ts[1].Ident? then None
    else match ParseLastWhere(ts[2..])
      case None => None
      case Some(ps) => Some(DeleteRows(ts[1].name, ps))
  }

  function ParseCount(ts: seq<Token>): Option<Statement> {
    if |ts| < 5 || ts[0] != LeftBracket || ts[1] != Star || ts[2] != RightBracket || ts[3] != Word(FROM)
       || !ts[4].Ident? then None
    else match ParseLastWhere(ts[5..])
      case None => None
      case Some(ps) => Some(CountRows(ts[4].name, ps))
  }

  function ParseSelect(d: Dialect, ts: seq<Token>): Option<Statement> {
    if |ts| < 2 || ts[0] != Word(FROM) || !ts[1].Ident? then None
    else match ParseWhere(ts[2..])
      case None => None
      case Some((ps, rest)) => ParseTail(d, ts[1].name, ps, rest)
  }

  function Parse(d: Dialect, ts: seq<Token>): Option<Statement> {
    if |ts| < 2 then None
    else if ts[0] == Word(SELECT) then
      if ts[1] == Star then ParseSelect(d, ts[2..])
      else if ts[1] == Word(COUNT) then ParseCount(ts[2..])
      else None
    else if ts[0] == Word(DELETE) then ParseDelete(ts[1..])
    else if ts[0] == Word(UPDATE) then ParseUpdate(ts[1..])
    else if ts[0] == Word(INSERT) then ParseInsert(d, ts[1..])
    else None
  }

  /** The statement a database executes for some text. */
  function Meaning(d: Dialect, text: string): Option<Statement> {
    match Read(d, text)
    case None => None
    case Some(ts) => Parse(d, ts)
  }

  // ---------------------------------------------------------------- what the conditions mean

  function Numbers(start: nat, n: nat): seq<nat>
    decreases n
  {
    if n == 0 then [] else [start] + Numbers(start + 1, n - 1)
  }

  function PredOf(m: Model, c: Condition, start: nat): Pred {
    var col := m.Column(c.field);
    match c
    case IsNull(_) => Null(col)
    case IsNotNull(_) => NotNull(col)
    case In(_, vs) => if vs == [] then Never else OneOf(col, Numbers(start, |vs|))
    case Like(_, _) => Similar(col, start)
    case Compare(_, op, _) => Cmp(col, op, start)
  }

  function PredsOf(m: Model, where: seq<Condition>, start: nat): seq<Pred>
    decreases |where|
  {
    if where == [] then []
    else [PredOf(m, where[0], start)] + PredsOf(m, where[1..], start + |CondArgs(where[0])|)
  }

  function SetsOf(m: Model, update: Assignments, start: nat): seq<(string, nat)>
    decreases |update|
  {
    if update == [] then [] else [(m.Column(update[0].0), start)] + SetsOf(m, update[1..], start + 1)
  }
  // ---------------------------------------------------------------- well-formed text

  /** Well-spelt tokens whose n parameters are numbered from `start`. */
  ghost predicate Piece(ts: Sql, start: nat, n: nat) {
    Mark !in ts && InOrder(ts, start) && Params(ts) == n
  }

  lemma PieceAppend(a: Sql, na: nat, b: Sql, nb: nat, start: nat)
    requires Piece(a, start, na) && Piece(b, start + na, nb)
    ensures Piece(a + b, start, na + nb)
  {
    InOrderAppend(a, b, start);
  }

  lemma PieceJoin(a: Sql, na: nat, sep: Token, b: Sql, nb: nat, start: nat)
    requires !sep.Param? && !sep.Mark? && Piece(a, start, na) && Piece(b, start + na, nb)
    ensures Piece(a + ([sep] + b), start, na + nb)
  {
    PlainPiece([sep], start + na);
    PieceAppend([sep], 0, b, nb, start + na);
    PieceAppend(a, na, [sep] + b, nb, start);
  }

  lemma ReadHeaded(d: Dialect, head: Sql, body: Sql, n: nat)
    requires forall i :: 0 <= i < |head| ==> !head[i].Param? && !head[i].Mark?
    requires Piece(body, 1, n)
    ensures Meaning(d, Render(d, head + body)) == Parse(d, head + body)
  {
    PlainPiece(head, 1);
    PieceAppend(head, 0, body, n, 1);
    ReadRendered(d, head + body);
  }

  lemma {:induction false} PlainPiece(ts: Sql, start: nat)
    requires Mark !in ts && forall i :: 0 <= i < |ts| ==> !ts[i].Param?
    ensures Piece(ts, start, 0)
  {
    if ts != [] { PlainPiece(ts[1..], start); }
  }

  lemma PlainThenParam(a: Token, b: Token, start: nat)
    requires !a.Param? && !a.Mark? && !b.Param? && !b.Mark?
    ensures Piece([a, b, Param(start)], start, 1)
  {
    PlainPiece([a, b], start);
    ParamPiece(start);
    PieceAppend([a, b], 0, [Param(start)], 1, start);
    assert [a, b] + [Param(start)] == [a, b, Param(start)];
  }

  lemma ParamPiece(start: nat)
    ensures Piece([Param(start)], start, 1)
  {
    assert [Param(start)][1..] == [];
  }

  lemma {:induction false} ParamListPiece(start: nat, n: nat)
    ensures Piece(ParamList(start, n), start, n)
    decreases n
  {
    if n == 1 {
      ParamPiece(start);
    } else if n > 1 {
      ParamListPiece(start + 1, n - 1);
      ParamPiece(start);
      PlainPiece([Comma], start + 1);
      PieceAppend([Param(start)], 1, [Comma], 0, start);
      PieceAppend([Param(start)] + [Comma], 1, ParamList(start + 1, n - 1), n - 1, start);
      assert [Param(start)] + [Comma] == [Param(start), Comma];
    }
  }

  lemma CondPiece(m: Model, c: Condition, start: nat)
    ensures Piece(CondText(m, c, start), start, |CondArgs(c)|)
  {
    var col := Ident(m.Column(c.field));
    match c
    case IsNull(_) => PlainPiece(CondText(m, c, start), start);
    case IsNotNull(_) => PlainPiece(CondText(m, c, start), start);
    case In(_, vs) =>
      if vs == [] {
        PlainPiece(CondText(m, c, start), start);
      } else {
        ParamListPiece(start, |vs|);
        PlainPiece([RightBracket], start + |vs|);
        PieceAppend(ParamList(start, |vs|), |vs|, [RightBracket], 0, start);
        PlainPiece([col, Word(IN), LeftBracket], start);
        PieceAppend([col, Word(IN), LeftBracket], 0, ParamList(start, |vs|) + [RightBracket], |vs|, start);
      }
    case Like(_, _) => PlainThenParam(col, Word(LIKE), start);
    case Compare(_, op, _) => PlainThenParam(col, Op(op), start);
  }

  lemma NoTokens(start: nat)
    ensures Piece([], start, 0)
  {
  }

  lemma {:induction false} AllPiece(m: Model, where: seq<Condition>, start: nat)
    ensures Piece(AllText(m, where, start), start, |AllArgs(where)|)
    decreases |where|
  {
    hide Piece, CondText, CondArgs;
    if where == [] {
      NoTokens(start);
    } else if |where| == 1 {
      CondPiece(m, where[0], start);
      assert where[1..] == [];
      assert CondArgs(where[0]) + [] == CondArgs(where[0]);
    } else if |where| > 1 {
      var n := |CondArgs(where[0])|;
      AllPiece(m, where[1..], start + n);
      ConsPiece(m, where[0], AllText(m, where[1..], start + n), |AllArgs(where[1..])|, start);
    }
  }

  lemma ConsPiece(m: Model, c: Condition, rest: Sql, n: nat, start: nat)
    requires Piece(rest, start + |CondArgs(c)|, n)
    ensures Piece(CondText(m, c, start) + ([Word(AND)] + rest), start, |CondArgs(c)| + n)
  {
    CondPiece(m, c, start);
    PieceJoin(CondText(m, c, start), |CondArgs(c)|, Word(AND), rest, n, start);
  }

  lemma WherePiece(m: Model, where: seq<Condition>, start: nat)
    ensures Piece(WhereText(m, where, start), start, |AllArgs(where)|)
  {
    if where != [] {
      AllPiece(m, where, start);
      PlainPiece([Word(WHERE)], start);
      PieceAppend([Word(WHERE)], 0, AllText(m, where, start), |AllArgs(where)|, start);
    }
  }

  lemma {:induction false} SetPiece(m: Model, update: Assignments, start: nat)
    ensures Piece(SetText(m, update, start), start, |update|)
    decreases |update|
  {
    if update != [] {
      var one := Assignment(m, update[0], start);
      PlainThenParam(Ident(m.Column(update[0].0)), Op(Eq), start);
      if |update| > 1 {
        SetPiece(m, update[1..], start + 1);
        PieceJoin(one, 1, Comma, SetText(m, update[1..], start + 1), |update| - 1, start);
      }
    }
  }

  lemma {:induction false} ColumnsPiece(m: Model, data: Assignments, start: nat)
    ensures Piece(ColumnList(m, data), start, 0)
    decreases |data|
  {
    if |data| == 1 {
      PlainPiece(ColumnList(m, data), start);
    } else if |data| > 1 {
      ColumnsPiece(m, data[1..], start);
      PlainPiece([Ident(m.Column(data[0].0)), Comma], start);
      PieceAppend([Ident(m.Column(data[0].0)), Comma], 0, ColumnList(m, data[1..]), 0, start);
    }
  }

  // ---------------------------------------------------------------- parsing what was built

  lemma {:induction false} ParseParamList(start: nat, n: nat, rest: seq<Token>)
    requires n > 0
    ensures ParseParams(ParamList(start, n) + ([RightBracket] + rest)) == Some((Numbers(start, n), rest))
    decreases n
  {
    var ts := ParamList(start, n) + ([RightBracket] + rest);
    if n == 1 {
      assert ts == [Param(start), RightBracket] + rest;
      assert Numbers(start, 1) == [start] + Numbers(start + 1, 0) == [start];
      assert ts[2..] == rest;
    } else {
      ParseParamList(start + 1, n - 1, rest);
      assert ts[2..] == ParamList(start + 1, n - 1) + ([RightBracket] + rest);
    }
  }

  lemma ParseCondText(m: Model, c: Condition, start: nat, rest: seq<Token>)
    ensures ParseCond(CondText(m, c, start) + rest) == Some((PredOf(m, c, start), rest))
  {
    var ts := CondText(m, c, start) + rest;
    if c.In? && c.vs != [] {
      ParseParamList(start, |c.vs|, rest);
      assert ts[3..] == ParamList(start, |c.vs|) + ([RightBracket] + rest);
    } else if c.IsNotNull? {
      assert ts[4..] == rest;
    } else {
      assert ts[3..] == rest;
    }
  }

  ghost predicate EndsWhere(rest: seq<Token>) {
    rest == [] || (rest[0] != Word(AND) && rest[0] != Word(WHERE))
  }

  lemma ParseOneCond(ts: seq<Token>, p: Pred, rest: seq<Token>)
    requires ParseCond(ts) == Some((p, rest)) && EndsWhere(rest)
    ensures ParseConds(ts) == Some(([p], rest))
  {
  }

  lemma ParseMoreConds(ts: seq<Token>, p: Pred, more: seq<Token>, ps: seq<Pred>, rest: seq<Token>)
    requires ParseCond(ts) == Some((p, [Word(AND)] + more)) && ParseConds(more) == Some((ps, rest))
    ensures ParseConds(ts) == Some(([p] + ps, rest))
  {
    assert ([Word(AND)] + more)[1..] == more;
  }

  lemma Reassociate(a: Sql, b: Sql, c: Sql, d: Sql)
    ensures a + (b + c) + d == a + (b + (c + d))
  {
  }

  lemma {:induction false} ParseAllText(m: Model, where: seq<Condition>, start: nat, rest: seq<Token>)
    requires where != [] && EndsWhere(rest)
    ensures ParseConds(AllText(m, where, start) + rest) == Some((PredsOf(m, where, start), rest))
    decreases |where|
  {
    var c, p := where[0], PredOf(m, where[0], start);
    var next := start + |CondArgs(c)|;
    var ts := AllText(m, where, start) + rest;
    assert PredsOf(m, where, start) == [p] + PredsOf(m, where[1..], next);
    if |where| == 1 {
      ParseCondText(m, c, start, rest);
      ParseOneCond(ts, p, rest);
      assert where[1..] == [] && [p] + [] == [p];
    } else {
      ParseAllText(m, where[1..], next, rest);
      var more := AllText(m, where[1..], next) + rest;
      ParseCondText(m, c, start, [Word(AND)] + more);
      Reassociate(CondText(m, c, start), [Word(AND)], AllText(m, where[1..], next), rest);
      ParseMoreConds(ts, p, more, PredsOf(m, where[1..], next), rest);
    }
  }

  lemma ParseWhereText(m: Model, where: seq<Condition>, start: nat, rest: seq<Token>)
    requires EndsWhere(rest)
    ensures ParseWhere(WhereText(m, where, start) + rest) == Some((PredsOf(m, where, start), rest))
  {
    if where == [] {
      assert WhereText(m, where, start) + rest == rest;
    } else {
      ParseAllText(m, where, start, rest);
      WhereThen(AllText(m, where, start), rest);
    }
  }

  lemma WhereThen(conds: seq<Token>, rest: seq<Token>)
    ensures ParseWhere([Word(WHERE)] + conds + rest) == ParseConds(conds + rest)
  {
    assert ([Word(WHERE)] + conds + rest)[1..] == conds + rest;
  }

  lemma ParseLastWhereText(m: Model, where: seq<Condition>, start: nat)
    ensures ParseLastWhere(WhereText(m, where, start)) == Some(PredsOf(m, where, start))
  {
    ParseWhereText(m, where, start, []);
    assert WhereText(m, where, start) + [] == WhereText(m, where, start);
  }

  lemma {:induction false} ParseSetText(m: Model, update: Assignments, start: nat, rest: seq<Token>)
    requires update != [] && (rest == [] || rest[0] != Comma)
    ensures ParseSets(SetText(m, update, start) + rest) == Some((SetsOf(m, update, start), rest))
    decreases |update|
  {
    var ts := SetText(m, update, start) + rest;
    if |update| == 1 {
      assert ts[3..] == rest && ts[0] == Ident(m.Column(update[0].0)) && ts[1] == Op(Eq) && ts[2] == Param(start);
      assert SetsOf(m, update, start) == [(m.Column(update[0].0), start)] by { assert update[1..] == []; }
    } else {
      ParseSetText(m, update[1..], start + 1, rest);
      assert ts[4..] == SetText(m, update[1..], start + 1) + rest;
    }
  }

  lemma {:induction false} ParseColumnList(m: Model, data: Assignments, rest: seq<Token>)
    requires data != []
    ensures ParseColumns(ColumnList(m, data) + ([RightBracket] + rest)) == Some((ColumnsOf(m, data), rest))
    decreases |data|
  {
    var ts := ColumnList(m, data) + ([RightBracket] + rest);
    if |data| == 1 {
      assert ts[2..] == rest;
      assert ColumnsOf(m, data) == [m.Column(data[0].0)] by { assert data[1..] == []; }
    } else {
      ParseColumnList(m, data[1..], rest);
      assert ts[2..] == ColumnList(m, data[1..]) + ([RightBracket] + rest);
    }
  }

  function ColumnsOf(m: Model, data: Assignments): seq<string> {
    if data == [] then [] else [m.Column(data[0].0)] + ColumnsOf(m, data[1..])
  }

  // ---------------------------------------------------------------- main results on text

  lemma ParseUpdateText(m: Model, where: seq<Condition>, update: Assignments)
    requires update != []
    ensures ParseUpdate([Ident(m.table), Word(SET)] + (SetText(m, update, 1) + WhereText(m, where, |update| + 1)))
      == Some(UpdateRows(m.table, SetsOf(m, update, 1), PredsOf(m, where, |update| + 1)))
  {
    var sets, conds := SetText(m, update, 1), WhereText(m, where, |update| + 1);
    ParseSetText(m, update, 1, conds);
    ParseLastWhereText(m, where, |update| + 1);
    assert ([Ident(m.table), Word(SET)] + (sets + conds))[2..] == sets + conds;
  }

  lemma DispatchUpdate(d: Dialect, table: string, body: Sql)
    ensures Parse(d, [Word(UPDATE), Ident(table), Word(SET)] + body) == ParseUpdate([Ident(table), Word(SET)] + body)
  {
    assert ([Word(UPDATE), Ident(table), Word(SET)] + body)[1..] == [Ident(table), Word(SET)] + body;
  }

  lemma DispatchDelete(d: Dialect, table: string, body: Sql)
    ensures Parse(d, [Word(DELETE), Word(FROM), Ident(table)] + body) == ParseDelete([Word(FROM), Ident(table)] + body)
  {
    assert ([Word(DELETE), Word(FROM), Ident(table)] + body)[1..] == [Word(FROM), Ident(table)] + body;
  }

  lemma DispatchCount(d: Dialect, table: string, body: Sql)
    ensures Parse(d, [Word(SELECT), Word(COUNT), LeftBracket, Star, RightBracket, Word(FROM), Ident(table)] + body)
      == ParseCount([LeftBracket, Star, RightBracket, Word(FROM), Ident(table)] + body)
  {
    assert ([Word(SELECT), Word(COUNT), LeftBracket, Star, RightBracket, Word(FROM), Ident(table)] + body)[2..]
        == [LeftBracket, Star, RightBracket, Word(FROM), Ident(table)] + body;
  }

  lemma DispatchSelect(d: Dialect, table: string, body: Sql)
    ensures Parse(d, [Word(SELECT), Star, Word(FROM), Ident(table)] + body)
      == ParseSelect(d, [Word(FROM), Ident(table)] + body)
  {
    assert ([Word(SELECT), Star, Word(FROM), Ident(table)] + body)[2..] == [Word(FROM), Ident(table)] + body;
  }

  lemma DispatchInsert(d: Dialect, table: string, cols: Sql, params: Sql)
    ensures Parse(d, [Word(INSERT), Word(INTO), Ident(table), LeftBracket]
                  + (cols + ([RightBracket, Word(VALUES), LeftBracket] + (params + [RightBracket]))))
      == ParseInsert(d, [Word(INTO), Ident(table), LeftBracket]
                     + (cols + ([RightBracket] + ([Word(VALUES), LeftBracket] + (params + ([RightBracket] + []))))))
  {
    var body := cols + ([RightBracket, Word(VALUES), LeftBracket] + (params + [RightBracket]));
    assert ([Word(INSERT), Word(INTO), Ident(table), LeftBracket] + body)[1..]
        == [Word(INTO), Ident(table), LeftBracket] + body;
    assert [RightBracket] + [] == [RightBracket];
    assert [RightBracket, Word(VALUES), LeftBracket] + (params + [RightBracket])
        == [RightBracket] + ([Word(VALUES), LeftBracket] + (params + [RightBracket]));
  }

  /** UPDATE: each column is set to its own value, and the conditions are bound after them. */
  lemma UpdateMeaning(d: Dialect, m: Model, where: seq<Condition>, update: Assignments)
    requires update != []
    ensures Meaning(d, Render(d, UpdateText(m, where, update)))
      == Some(UpdateRows(m.table, SetsOf(m, update, 1), PredsOf(m, where, |update| + 1)))
  {
    var body := SetText(m, update, 1) + WhereText(m, where, |update| + 1);
    SetPiece(m, update, 1);
    WherePiece(m, where, |update| + 1);
    PieceAppend(SetText(m, update, 1), |update|, WhereText(m, where, |update| + 1), |AllArgs(where)|, 1);
    ReadHeaded(d, [Word(UPDATE), Ident(m.table), Word(SET)], body, |update| + |AllArgs(where)|);
    DispatchUpdate(d, m.table, body);
    ParseUpdateText(m, where, update);
  }

  lemma DeleteMeaning(d: Dialect, m: Model, where: seq<Condition>)
    ensures Meaning(d, Render(d, DeleteText(m, where))) == Some(DeleteRows(m.table, PredsOf(m, where, 1)))
  {
    WherePiece(m, where, 1);
    ReadHeaded(d, [Word(DELETE), Word(FROM), Ident(m.table)], WhereText(m, where, 1), |AllArgs(where)|);
    DispatchDelete(d, m.table, WhereText(m, where, 1));
    ParseLastWhereText(m, where, 1);
    assert ([Word(FROM), Ident(m.table)] + WhereText(m, where, 1))[2..] == WhereText(m, where, 1);
  }

  lemma ParseCountText(m: Model, where: seq<Condition>)
    ensures ParseCount([LeftBracket, Star, RightBracket, Word(FROM), Ident(m.table)] + WhereText(m, where, 1))
      == Some(CountRows(m.table, PredsOf(m, where, 1)))
  {
    ParseLastWhereText(m, where, 1);
    assert ([LeftBracket, Star, RightBracket, Word(FROM), Ident(m.table)] + WhereText(m, where, 1))[5..]
        == WhereText(m, where, 1);
  }

  lemma CountMeaning(d: Dialect, m: Model, where: seq<Condition>)
    ensures Meaning(d, Render(d, CountText(m, where))) == Some(CountRows(m.table, PredsOf(m, where, 1)))
  {
    WherePiece(m, where, 1);
    ReadHeaded(d, [Word(SELECT), Word(COUNT), LeftBracket, Star, RightBracket, Word(FROM), Ident(m.table)],
               WhereText(m, where, 1), |AllArgs(where)|);
    DispatchCount(d, m.table, WhereText(m, where, 1));
    ParseCountText(m, where);
  }

  lemma ParseInsertText(d: Dialect, m: Model, data: Assignments)
    requires data != []
    ensures ParseInsert(d, [Word(INTO), Ident(m.table), LeftBracket] + (ColumnList(m, data) + ([RightBracket]
                        + ([Word(VALUES), LeftBracket] + (ParamList(1, |data|) + ([RightBracket] + []))))))
      == Some(InsertRow(m.table, ColumnsOf(m, data), Numbers(1, |data|)))
  {
    var params := ParamList(1, |data|) + ([RightBracket] + []);
    var values := [Word(VALUES), LeftBracket] + params;
    ParseColumnList(m, data, values);
    ParseParamList(1, |data|, []);
    LengthOfColumns(m, data);
    LengthOfNumbers(1, |data|);
    var ts := [Word(INTO), Ident(m.table), LeftBracket] + (ColumnList(m, data) + ([RightBracket] + values));
    assert ts[3..] == ColumnList(m, data) + ([RightBracket] + values);
    assert ts[3] == Ident(m.Column(data[0].0));
    assert values[2..] == params;
  }

  lemma InsertPiece(m: Model, data: Assignments)
    ensures Piece(ColumnList(m, data) + ([RightBracket, Word(VALUES), LeftBracket]
                  + (ParamList(1, |data|) + [RightBracket])), 1, |data|)
  {
    var n := |data|;
    ColumnsPiece(m, data, 1);
    PlainPiece([RightBracket, Word(VALUES), LeftBracket], 1);
    ParamListPiece(1, n);
    PlainPiece([RightBracket], 1 + n);
    PieceAppend(ParamList(1, n), n, [RightBracket], 0, 1);
    PieceAppend([RightBracket, Word(VALUES), LeftBracket], 0, ParamList(1, n) + [RightBracket], n, 1);
    PieceAppend(ColumnList(m, data), 0,
                [RightBracket, Word(VALUES), LeftBracket] + (ParamList(1, n) + [RightBracket]), n, 1);
  }

  lemma ParseEmptyInsert(d: Dialect, m: Model)
    ensures ParseInsert(d, [Word(INTO), Ident(m.table), LeftBracket] + ([] + ([RightBracket]
                        + ([Word(VALUES), LeftBracket] + ([] + ([RightBracket] + []))))))
      == if d == MySQL then Some(InsertRow(m.table, [], [])) else None
  {
    var ts := [Word(INTO), Ident(m.table), LeftBracket] + ([] + ([RightBracket]
                        + ([Word(VALUES), LeftBracket] + ([] + ([RightBracket] + [])))));
    assert ts == [Word(INTO), Ident(m.table), LeftBracket, RightBracket, Word(VALUES), LeftBracket, RightBracket];
    assert ts[3..] == [RightBracket, Word(VALUES), LeftBracket, RightBracket];
  }

  /** INSERT: column k receives argument k. Without columns the text is a statement of MySQL's
      only. */
  lemma InsertMeaning(d: Dialect, m: Model, data: Assignments)
    ensures Meaning(d, Render(d, InsertText(m, data)))
      == if data != [] || d == MySQL then Some(InsertRow(m.table, ColumnsOf(m, data), Numbers(1, |data|))) else None
  {
    InsertPiece(m, data);
    ReadHeaded(d, [Word(INSERT), Word(INTO), Ident(m.table), LeftBracket],
               ColumnList(m, data)
                   + ([RightBracket, Word(VALUES), LeftBracket] + (ParamList(1, |data|) + [RightBracket])),
               |data|);
    DispatchInsert(d, m.table, ColumnList(m, data), ParamList(1, |data|));
    hide Parse, ParseInsert;
    if data == [] {
      ParseEmptyInsert(d, m);
    } else {
      ParseInsertText(d, m, data);
    }
  }

  lemma {:induction false} LengthOfColumns(m: Model, data: Assignments)
    ensures |ColumnsOf(m, data)| == |data|
  {
    if data != [] { LengthOfColumns(m, data[1..]); }
  }

  lemma {:induction false} LengthOfNumbers(start: nat, n: nat)
    ensures |Numbers(start, n)| == n
    decreases n
  {
    if n > 0 { LengthOfNumbers(start + 1, n - 1); }
  }

  predicate OffsetAllowed(d: Dialect, q: Query) {
    q.offset <= 0 || q.limit > 0 || d.Postgres?
  }

  function SelectOf(m: Model, q: Query, where: seq<Pred>): Statement {
    Select(m.table, where,
           if q.sortBy == "" then None else Some((m.Column(q.sortBy), q.desc)),
           if q.limit > 0 then Some(q.limit) else None,
           if q.offset > 0 then Some(q.offset) else None)
  }

  lemma ParseTailText(d: Dialect, m: Model, q: Query, where: seq<Pred>)
    ensures ParseTail(d, m.table, where, OrderText(m, q) + LimitText(q)) ==
      if OffsetAllowed(d, q) then Some(SelectOf(m, q, where)) else None
  {
    var ts := OrderText(m, q) + LimitText(q);
    if q.sortBy != "" {
      assert ts[4..] == LimitText(q);
    } else {
      assert ts == LimitText(q);
    }
    var ts1 := LimitText(q);
    if q.limit > 0 {
      assert ts1[2..] == if q.offset > 0 then [Word(OFFSET), Num(q.offset)] else [];
    }
  }

  lemma ParseSelectText(d: Dialect, m: Model, q: Query)
    ensures ParseSelect(d, [Word(FROM), Ident(m.table)] + (WhereText(m, q.where, 1) + (OrderText(m, q) + LimitText(q))))
      == if OffsetAllowed(d, q) then Some(SelectOf(m, q, PredsOf(m, q.where, 1))) else None
  {
    var tail := OrderText(m, q) + LimitText(q);
    ParseWhereText(m, q.where, 1, tail);
    ParseTailText(d, m, q, PredsOf(m, q.where, 1));
    assert ([Word(FROM), Ident(m.table)] + (WhereText(m, q.where, 1) + tail))[2..] == WhereText(m, q.where, 1) + tail;
  }

  lemma TailPiece(m: Model, q: Query, start: nat)
    ensures Piece(OrderText(m, q) + LimitText(q), start, 0)
  {
    PlainPiece(OrderText(m, q) + LimitText(q), start);
  }

  /** SELECT: well formed exactly when it does not skip rows without a limit in a dialect that
      has no such form. */
  lemma SelectMeaning(d: Dialect, m: Model, q: Query)
    ensures Meaning(d, Render(d, SelectText(m, q)))
      == if OffsetAllowed(d, q) then Some(SelectOf(m, q, PredsOf(m, q.where, 1))) else None
  {
    hide WhereText, AllArgs, Meaning, Render, ParseSelect, OffsetAllowed, SelectOf, PredsOf, Piece;
    var tail, n := OrderText(m, q) + LimitText(q), |AllArgs(q.where)|;
    var body := WhereText(m, q.where, 1) + tail;
    WherePiece(m, q.where, 1);
    TailPiece(m, q, 1 + n);
    PieceAppend(WhereText(m, q.where, 1), n, tail, 0, 1);
    ReadHeaded(d, [Word(SELECT), Star, Word(FROM), Ident(m.table)], body, n);
    DispatchSelect(d, m.table, body);
    ParseSelectText(d, m, q);
  }
}

/** The in-memory adapter (adapter/memory/memory.go): rows changed in place, unique
    constraints checked on insertion, transactions rolled back to a deep snapshot. */
module MemoryAdapter {
  import opened Wrappers
  import opened Conditions
  import opened Decimal

  datatype Model = Model(primaryKey: string, uniqueFields: set<string>, uniqueIndexes: seq<seq<string>>)

  /** No registered schema means a fallback model for every name. */
  type Schema = Option<map<string, Model>>

  function GetModel(s: Schema, name: string): Option<Model> {
    match s
    case None => Some(Model("id", {}, []))
    case Some(models) => if name in models then Some(models[name]) else None
  }

  datatype Error = ModelNotFound | Conflict | NotFound

  // ---------------------------------------------------------------- what the tables hold

  type Rows = map<string, Row>
  type Database = map<string, Rows>

  function TableOf(db: Database, model: string): Rows {
    if model in db then db[model] else map[]
  }

  predicate FieldTaken(c: Clock, t: Rows, data: Row, f: string) {
    f in data && data[f] != Nil && exists k | k in t :: f in t[k] && MatchEqual(c, t[k][f], data[f])
  }

  predicate SameOn(c: Clock, a: Row, b: Row, fields: seq<string>) {
    forall i | 0 <= i < |fields| :: fields[i] in a && fields[i] in b && MatchEqual(c, a[fields[i]], b[fields[i]])
  }

  predicate IndexTaken(c: Clock, t: Rows, data: Row, fields: seq<string>) {
    exists k | k in t :: SameOn(c, data, t[k], fields)
  }

  /** The primary key of a row to insert, as text; empty when missing. */
  function KeyOf(c: Clock, m: Model, data: Row): string {
    if m.primaryKey in data && data[m.primaryKey] != Nil then Text(c, data[m.primaryKey]) else ""
  }

  predicate Fits(c: Clock, m: Model, t: Rows, data: Row) {
    && (forall f | f in m.uniqueFields :: !FieldTaken(c, t, data, f))
    && (forall i | 0 <= i < |m.uniqueIndexes| :: !IndexTaken(c, t, data, m.uniqueIndexes[i]))
  }

  predicate Accepts(c: Clock, m: Model, t: Rows, data: Row) {
    KeyOf(c, m, data) != "" && KeyOf(c, m, data) !in t && Fits(c, m, t, data)
  }

  function Inserted(c: Clock, s: Schema, db: Database, model: string, data: Row): Result<Database, Error> {
    match GetModel(s, model)
    case None => Err(ModelNotFound)
    case Some(m) =>
      var t := TableOf(db, model);
      if Accepts(c, m, t, data) then Ok(db[model := t[KeyOf(c, m, data) := data]]) else Err(Conflict)
  }

  function Matching(c: Clock, t: Rows, where: seq<Condition>): set<string> {
    set k | k in t && MatchConditions(c, t[k], where)
  }

  function WithUpdated(t: Rows, keys: set<string>, update: Row): Rows {
    map k | k in t :: if k in keys then t[k] + update else t[k]
  }

  function UpdatedRows(c: Clock, t: Rows, where: seq<Condition>, update: Row): Rows {
    WithUpdated(t, Matching(c, t, where), update)
  }

  function Updated(c: Clock, db: Database, model: string, where: seq<Condition>, update: Row): Database {
    if model in db then db[model := UpdatedRows(c, db[model], where, update)] else db
  }

  function KeptRows(c: Clock, t: Rows, where: seq<Condition>): Rows {
    t - Matching(c, t, where)
  }

  function Deleted(c: Clock, db: Database, model: string, where: seq<Condition>): Database {
    if model in db then db[model := KeptRows(c, db[model], where)] else db
  }

  // ---------------------------------------------------------------- what the operations do, row by row

  /** The text of a key: strings as they are, integers in decimal notation. */
  lemma TextExactly(c: Clock, v: Value)
    ensures v.Str? ==> Text(c, v) == v.s
    ensures v.Int? ==> Text(c, v) == if v.n >= 0 then Format(v.n) else "-" + Format(-v.n)
    ensures v.Bool? ==> (Text(c, v) == "true" <==> v.b) && (Text(c, v) == "false" <==> !v.b)
  {
    assert "true"[0] != "false"[0];
  }

  /** Two rows agree on a field: both have it, with equal values. */
  predicate Agree(c: Clock, a: Row, b: Row, f: string) {
    f in a && f in b && MatchEqual(c, a[f], b[f])
  }

  /** An insertion succeeds exactly with a non-empty primary key that is not taken, non-nil
      unique fields in which no row agrees, and no index in all of whose fields a row agrees; the
      row is then stored as given under the text of its key. */
  lemma InsertedExactlyWhen(c: Clock, s: Schema, db: Database, model: string, data: Row)
    ensures var r := Inserted(c, s, db, model, data);
      && (r == Err(ModelNotFound) <==> s.Some? && model !in s.value)
      && (r.Ok? <==>
          && GetModel(s, model).Some?
          && var (m, t) := (GetModel(s, model).value, if model in db then db[model] else map[]);
          && m.primaryKey in data && data[m.primaryKey] != Nil && Text(c, data[m.primaryKey]) != ""
          && Text(c, data[m.primaryKey]) !in t
          && (forall f, k :: f in m.uniqueFields && k in t && f in data && data[f] != Nil ==> !Agree(c, t[k], data, f))
          && (forall i :: 0 <= i < |m.uniqueIndexes| ==> IndexFree(c, t, data, m.uniqueIndexes[i])))
      && (r.Ok? ==>
          var k := Text(c, data[GetModel(s, model).value.primaryKey]);
          && r.value.Keys == db.Keys + {model}
          && (forall n :: n in db && n != model ==> r.value[n] == db[n])
          && k in r.value[model] && r.value[model][k] == data
          && (forall l :: l != k ==> (l in r.value[model] <==> model in db && l in db[model]))
          && (forall l :: l != k && model in db && l in db[model] ==> r.value[model][l] == db[model][l]))
      && (r.Err? && r.error != ModelNotFound ==> r.error == Conflict)
  {
    hide MatchEqual, Text, SameOn, Agree, FieldTaken, IndexTaken, IndexFree;
    if GetModel(s, model).Some? {
      var (m, t) := (GetModel(s, model).value, TableOf(db, model));
      FieldsFreeExactly(c, m, t, data);
      forall i | 0 <= i < |m.uniqueIndexes|
        ensures IndexTaken(c, t, data, m.uniqueIndexes[i]) <==> !IndexFree(c, t, data, m.uniqueIndexes[i])
      {
        IndexFreeExactly(c, t, data, m.uniqueIndexes[i]);
      }
    }
  }

  lemma FieldsFreeExactly(c: Clock, m: Model, t: Rows, data: Row)
    ensures (forall f | f in m.uniqueFields :: !FieldTaken(c, t, data, f)) <==>
      forall f, k :: f in m.uniqueFields && k in t && f in data && data[f] != Nil ==> !Agree(c, t[k], data, f)
  {
    hide MatchEqual;
  }

  lemma SameOnExactly(c: Clock, a: Row, b: Row, fields: seq<string>)
    ensures SameOn(c, a, b, fields) <==> forall f :: f in fields ==> Agree(c, a, b, f)
  {
    hide MatchEqual;
    if forall f :: f in fields ==> Agree(c, a, b, f) {
      forall i | 0 <= i < |fields|
        ensures fields[i] in a && fields[i] in b && MatchEqual(c, a[fields[i]], b[fields[i]])
      {
        assert fields[i] in fields && Agree(c, a, b, fields[i]);
      }
    }
  }

  /** No row agrees on all fields of the index. */
  predicate IndexFree(c: Clock, t: Rows, data: Row, fields: seq<string>) {
    forall k :: k in t ==> exists f :: f in fields && !Agree(c, data, t[k], f)
  }

  lemma IndexFreeExactly(c: Clock, t: Rows, data: Row, fields: seq<string>)
    ensures IndexTaken(c, t, data, fields) <==> !IndexFree(c, t, data, fields)
  {
    hide SameOn, Agree;
    forall k | k in t
      ensures SameOn(c, data, t[k], fields) <==> !(exists f :: f in fields && !Agree(c, data, t[k], f))
    {
      SameOnExactly(c, data, t[k], fields);
    }
  }

  /** Without a schema every model has the key "id" and nothing is unique. */
  lemma WithoutSchema(c: Clock, db: Database, model: string, data: Row, id: string)
    requires "id" in data && data["id"] == Str(id)
    ensures Inserted(c, None, db, model, data) ==
      var t := if model in db then db[model] else map[];
      if id != "" && id !in t then Ok(db[model := t[id := data]]) else Err(Conflict)
  {
  }

  /** An update writes its fields into exactly the matching rows of the model, a deletion removes
      exactly those. */
  lemma ChangedExactly(c: Clock, db: Database, model: string, where: seq<Condition>, update: Row)
    ensures var after := Updated(c, db, model, where, update);
      && after.Keys == db.Keys && (forall n :: n in db && n != model ==> after[n] == db[n])
      && (model in db ==>
          && after[model].Keys == db[model].Keys
          && forall k :: k in db[model] ==>
            var (was, row) := (db[model][k], after[model][k]);
            if MatchConditions(c, was, where) then
              && row.Keys == was.Keys + update.Keys
              && forall f :: f in row ==> row[f] == if f in update then update[f] else was[f]
            else row == was)
    ensures var after := Deleted(c, db, model, where);
      && after.Keys == db.Keys && (forall n :: n in db && n != model ==> after[n] == db[n])
      && (model in db ==>
          && (forall k :: k in after[model] <==> k in db[model] && !MatchConditions(c, db[model][k], where))
          && forall k :: k in after[model] ==> after[model][k] == db[model][k])
  {
    hide MatchConditions;
  }

  // ---------------------------------------------------------------- transactions as scripts

  /** The store calls a transaction function makes, in order. A failed call either aborts the
      function or is ignored by it; so does a failed nested transaction. */
  datatype Command =
    | Create(model: string, data: Row, ignoreError: bool)
    | Update(model: string, where: seq<Condition>, update: Row)
    | Delete(model: string, where: seq<Condition>)
    | Nested(body: seq<Command>, ignoreError: bool)
    | Fail

  /** Nested transactions join the outer one: their effects stay even if they fail. */
  function Run(c: Clock, s: Schema, db: Database, script: seq<Command>): (Database, bool)
    decreases script
  {
    if script == [] then (db, true)
    else
      match Step(c, s, db, script[0])
      case (next, false) => (next, false)
      case (next, true) => Run(c, s, next, script[1..])
  }

  function Step(c: Clock, s: Schema, db: Database, cmd: Command): (Database, bool)
    decreases cmd
  {
    match cmd
    case Create(model, data, ignoreError) =>
      (match Inserted(c, s, db, model, data)
       case Ok(next) => (next, true)
       case Err(_) => (db, ignoreError))
    case Update(model, where, update) => (Updated(c, db, model, where, update), true)
    case Delete(model, where) => (Deleted(c, db, model, where), true)
    case Nested(body, ignoreError) =>
      var (next, ok) := Run(c, s, db, body);
      (next, ok || ignoreError)
    case Fail => (db, false)
  }

  /** How a transaction function goes on: updates and deletions succeed, a failed insertion or
      nested call ends it unless its error is ignored, and a failure of its own always does. */
  lemma StepsExactly(c: Clock, s: Schema, db: Database, cmd: Command)
    ensures var (next, ok) := Step(c, s, db, cmd);
      match cmd
      case Create(model, data, ignoreError) =>
        && (ok <==> ignoreError || Inserted(c, s, db, model, data).Ok?)
        && next == if Inserted(c, s, db, model, data).Ok? then Inserted(c, s, db, model, data).value else db
      case Update(model, where, update) => ok && next == Updated(c, db, model, where, update)
      case Delete(model, where) => ok && next == Deleted(c, db, model, where)
      case Nested(body, ignoreError) =>
        next == Run(c, s, db, body).0 && (ok <==> ignoreError || Run(c, s, db, body).1)
      case Fail => !ok && next == db
  {
  }

  /** A script succeeds exactly if all of its steps do, in the states they find. */
  lemma ScriptsExactly(c: Clock, s: Schema, db: Database, script: seq<Command>)
    ensures script == [] ==> Run(c, s, db, script) == (db, true)
    ensures script != [] ==>
      var (next, ok) := Step(c, s, db, script[0]);
      Run(c, s, db, script) == if ok then Run(c, s, next, script[1..]) else (next, false)
  {
  }

  /** An outer transaction commits all or nothing. */
  function Transact(c: Clock, s: Schema, db: Database, script: seq<Command>): (Database, bool) {
    var (next, ok) := Run(c, s, db, script);
    (if ok then next else db, ok)
  }

  // ---------------------------------------------------------------- uniqueness

  ghost predicate FieldUnique(c: Clock, t: Rows, f: string) {
    forall k, l :: k in t && l in t && k != l && f in t[k] && f in t[l] && t[k][f] != Nil && t[l][f] != Nil ==>
      !MatchEqual(c, t[k][f], t[l][f])
  }

  ghost predicate IndexUnique(c: Clock, t: Rows, fields: seq<string>) {
    forall k, l :: k in t && l in t && k != l ==> !SameOn(c, t[k], t[l], fields)
  }

  ghost predicate RowsUnique(c: Clock, m: Model, t: Rows) {
    && (forall f :: f in m.uniqueFields ==> FieldUnique(c, t, f))
    && (forall i :: 0 <= i < |m.uniqueIndexes| ==> IndexUnique(c, t, m.uniqueIndexes[i]))
  }

  ghost predicate Unique(c: Clock, s: Schema, db: Database) {
    forall model :: model in db && GetModel(s, model).Some? ==> RowsUnique(c, GetModel(s, model).value, db[model])
  }

  /** Fields under a unique constraint, alone or in an index. */
  predicate Guarded(m: Model, f: string) {
    f in m.uniqueFields || exists i | 0 <= i < |m.uniqueIndexes| :: f in m.uniqueIndexes[i]
  }

  /** Writing the update to these rows makes no duplicate of a unique field: it is not written,
      or written empty, or only one row gets it and no other row has it already. */
  ghost predicate FieldFits(c: Clock, t: Rows, hit: set<string>, update: Row, f: string) {
    f in update && update[f] != Nil ==>
      forall k, l :: k in hit && l in t && l != k ==>
        l !in hit && !(f in t[l] && t[l][f] != Nil && MatchEqual(c, update[f], t[l][f]))
  }

  /** A changed row would agree with another row, changed or not, on all fields of an index. */
  predicate Collides(c: Clock, changed: Row, other: Row, both: bool, update: Row, fields: seq<string>) {
    forall i | 0 <= i < |fields| ::
      if fields[i] in update then both || (fields[i] in other && MatchEqual(c, update[fields[i]], other[fields[i]]))
      else fields[i] in changed && fields[i] in other && MatchEqual(c, changed[fields[i]], other[fields[i]])
  }

  ghost predicate IndexFits(c: Clock, t: Rows, hit: set<string>, update: Row, fields: seq<string>) {
    forall k, l :: k in hit && k in t && l in t && l != k ==> !Collides(c, t[k], t[l], l in hit, update, fields)
  }

  /** What an update would have to check to keep a table unique; the adapter does not. */
  ghost predicate UpdateFits(c: Clock, m: Model, t: Rows, hit: set<string>, update: Row) {
    && (forall f :: f in m.uniqueFields ==> FieldFits(c, t, hit, update, f))
    && (forall i :: 0 <= i < |m.uniqueIndexes| ==> IndexFits(c, t, hit, update, m.uniqueIndexes[i]))
  }

  /** Every update that is reached, at any depth, fits the tables it finds. */
  ghost predicate Careful(c: Clock, s: Schema, db: Database, script: seq<Command>)
    decreases script
  {
    script == [] ||
    (CarefulStep(c, s, db, script[0])
     && (Step(c, s, db, script[0]).1 ==> Careful(c, s, Step(c, s, db, script[0]).0, script[1..])))
  }

  ghost predicate CarefulStep(c: Clock, s: Schema, db: Database, cmd: Command)
    decreases cmd
  {
    match cmd
    case Update(model, where, update) =>
      model in db && GetModel(s, model).Some? ==>
        UpdateFits(c, GetModel(s, model).value, db[model], Matching(c, db[model], where), update)
    case Nested(body, _) => Careful(c, s, db, body)
    case _ => true
  }

  /** The tables are unique after every command, those of nested transactions included. */
  ghost predicate UniqueThroughout(c: Clock, s: Schema, db: Database, script: seq<Command>)
    decreases script
  {
    script == [] ||
    (UniqueThroughStep(c, s, db, script[0])
     && (Step(c, s, db, script[0]).1 ==> UniqueThroughout(c, s, Step(c, s, db, script[0]).0, script[1..])))
  }

  ghost predicate UniqueThroughStep(c: Clock, s: Schema, db: Database, cmd: Command)
    decreases cmd
  {
    match cmd
    case Nested(body, _) => UniqueThroughout(c, s, db, body)
    case _ => Unique(c, s, Step(c, s, db, cmd).0)
  }

  /** Updates, at any depth, that leave guarded columns alone. */
  ghost predicate Unguarded(s: Schema, script: seq<Command>)
    decreases script
  {
    forall i :: 0 <= i < |script| ==> UnguardedStep(s, script[i])
  }

  ghost predicate UnguardedStep(s: Schema, cmd: Command)
    decreases cmd
  {
    match cmd
    case Update(model, _, update) =>
      GetModel(s, model).Some? ==> forall f :: f in update ==> !Guarded(GetModel(s, model).value, f)
    case Nested(body, _) => Unguarded(s, body)
    case _ => true
  }

  lemma SameOnSymmetric(c: Clock, a: Row, b: Row, fields: seq<string>)
    ensures SameOn(c, a, b, fields) <==> SameOn(c, b, a, fields)
  {
    forall i | 0 <= i < |fields| && fields[i] in a && fields[i] in b
      ensures MatchEqual(c, a[fields[i]], b[fields[i]]) <==> MatchEqual(c, b[fields[i]], a[fields[i]])
    {
      MatchEqualSymmetric(c, a[fields[i]], b[fields[i]]);
    }
  }

  lemma InsertKeepsFieldUnique(c: Clock, t: Rows, k: string, data: Row, f: string)
    requires FieldUnique(c, t, f) && k !in t && !FieldTaken(c, t, data, f)
    ensures FieldUnique(c, t[k := data], f)
  {
    forall l | l in t && f in t[l] && f in data
      ensures MatchEqual(c, t[l][f], data[f]) <==> MatchEqual(c, data[f], t[l][f])
    {
      MatchEqualSymmetric(c, t[l][f], data[f]);
    }
  }

  lemma InsertKeepsIndexUnique(c: Clock, t: Rows, k: string, data: Row, fields: seq<string>)
    requires IndexUnique(c, t, fields) && k !in t && !IndexTaken(c, t, data, fields)
    ensures IndexUnique(c, t[k := data], fields)
  {
    forall l | l in t ensures SameOn(c, data, t[l], fields) <==> SameOn(c, t[l], data, fields) {
      SameOnSymmetric(c, data, t[l], fields);
    }
  }

  lemma InsertKeepsUnique(c: Clock, m: Model, t: Rows, data: Row)
    requires RowsUnique(c, m, t) && Accepts(c, m, t, data)
    ensures RowsUnique(c, m, t[KeyOf(c, m, data) := data])
  {
    var k := KeyOf(c, m, data);
    forall f | f in m.uniqueFields ensures FieldUnique(c, t[k := data], f) {
      InsertKeepsFieldUnique(c, t, k, data, f);
    }
    forall i | 0 <= i < |m.uniqueIndexes| ensures IndexUnique(c, t[k := data], m.uniqueIndexes[i]) {
      InsertKeepsIndexUnique(c, t, k, data, m.uniqueIndexes[i]);
    }
  }

  lemma MatchEqualReflexive(c: Clock, v: Value)
    ensures MatchEqual(c, v, v)
  {
  }

  /** A unique field stays unique under an update if and only if the update fits it. */
  lemma FieldUniqueAfterUpdate(c: Clock, t: Rows, hit: set<string>, update: Row, f: string)
    requires FieldUnique(c, t, f) && hit <= t.Keys
    ensures FieldUnique(c, WithUpdated(t, hit, update), f) <==> FieldFits(c, t, hit, update, f)
  {
    var u := WithUpdated(t, hit, update);
    if f in update && update[f] != Nil {
      MatchEqualReflexive(c, update[f]);
      forall l | l in t && f in t[l]
        ensures MatchEqual(c, update[f], t[l][f]) <==> MatchEqual(c, t[l][f], update[f])
      {
        MatchEqualSymmetric(c, update[f], t[l][f]);
      }
      assert forall k :: k in hit ==> f in u[k] && u[k][f] == update[f];
      assert forall l :: l in t && l !in hit ==> u[l] == t[l];
      hide MatchEqual;
      if FieldUnique(c, u, f) {
        forall k, l | k in hit && l in t && l != k
          ensures l !in hit && !(f in t[l] && t[l][f] != Nil && MatchEqual(c, update[f], t[l][f]))
        {
        }
      }
    }
  }

  lemma CollidesMeansSame(c: Clock, t: Rows, hit: set<string>, update: Row, fields: seq<string>, k: string, l: string)
    requires k in hit && k in t && l in t
    ensures Collides(c, t[k], t[l], l in hit, update, fields)
      <==> SameOn(c, WithUpdated(t, hit, update)[k], WithUpdated(t, hit, update)[l], fields)
  {
    forall i | 0 <= i < |fields| && fields[i] in update ensures MatchEqual(c, update[fields[i]], update[fields[i]]) {
      MatchEqualReflexive(c, update[fields[i]]);
    }
    hide MatchEqual;
    var u := WithUpdated(t, hit, update);
    assert u[k] == t[k] + update;
    assert u[l] == if l in hit then t[l] + update else t[l];
  }

  /** So does a composite index. */
  lemma IndexUniqueAfterUpdate(c: Clock, t: Rows, hit: set<string>, update: Row, fields: seq<string>)
    requires IndexUnique(c, t, fields) && hit <= t.Keys
    ensures IndexUnique(c, WithUpdated(t, hit, update), fields) <==> IndexFits(c, t, hit, update, fields)
  {
    hide Collides, SameOn;
    var u := WithUpdated(t, hit, update);
    if IndexUnique(c, u, fields) {
      forall k, l | k in hit && k in t && l in t && l != k ensures !Collides(c, t[k], t[l], l in hit, update, fields) {
        CollidesMeansSame(c, t, hit, update, fields, k, l);
        assert !SameOn(c, u[k], u[l], fields);
      }
    }
    if IndexFits(c, t, hit, update, fields) {
      forall k, l | k in u && l in u && k != l ensures !SameOn(c, u[k], u[l], fields) {
        PairStaysApart(c, t, hit, update, fields, k, l);
      }
    }
  }

  lemma PairStaysApart(c: Clock, t: Rows, hit: set<string>, update: Row, fields: seq<string>, k: string, l: string)
    requires IndexUnique(c, t, fields) && IndexFits(c, t, hit, update, fields) && k in t && l in t && k != l
    ensures !SameOn(c, WithUpdated(t, hit, update)[k], WithUpdated(t, hit, update)[l], fields)
  {
    hide Collides, SameOn;
    var u := WithUpdated(t, hit, update);
    if k in hit {
      CollidesMeansSame(c, t, hit, update, fields, k, l);
    } else if l in hit {
      CollidesMeansSame(c, t, hit, update, fields, l, k);
      SameOnSymmetric(c, u[k], u[l], fields);
    } else {
      assert u[k] == t[k] && u[l] == t[l];
      assert !SameOn(c, t[k], t[l], fields);
    }
  }

  /** A table stays unique under an update if and only if the update fits it. */
  lemma UniqueAfterUpdate(c: Clock, m: Model, t: Rows, where: seq<Condition>, update: Row)
    requires RowsUnique(c, m, t)
    ensures RowsUnique(c, m, UpdatedRows(c, t, where, update)) <==> UpdateFits(c, m, t, Matching(c, t, where), update)
  {
    var hit := Matching(c, t, where);
    forall f | f in m.uniqueFields
      ensures FieldUnique(c, WithUpdated(t, hit, update), f) <==> FieldFits(c, t, hit, update, f)
    {
      FieldUniqueAfterUpdate(c, t, hit, update, f);
    }
    forall i | 0 <= i < |m.uniqueIndexes|
      ensures IndexUnique(c, WithUpdated(t, hit, update), m.uniqueIndexes[i])
        <==> IndexFits(c, t, hit, update, m.uniqueIndexes[i])
    {
      IndexUniqueAfterUpdate(c, t, hit, update, m.uniqueIndexes[i]);
    }
    hide FieldUnique, FieldFits, IndexUnique, IndexFits, WithUpdated;
  }

  lemma UnguardedFits(c: Clock, m: Model, t: Rows, where: seq<Condition>, update: Row)
    requires RowsUnique(c, m, t) && forall f :: f in update ==> !Guarded(m, f)
    ensures UpdateFits(c, m, t, Matching(c, t, where), update)
  {
    var hit := Matching(c, t, where);
    forall f | f in m.uniqueFields ensures FieldFits(c, t, hit, update, f) {
      assert Guarded(m, f);
    }
    forall i | 0 <= i < |m.uniqueIndexes| ensures IndexFits(c, t, hit, update, m.uniqueIndexes[i]) {
      var fields := m.uniqueIndexes[i];
      assert forall j :: 0 <= j < |fields| ==> Guarded(m, fields[j]);
      forall k, l | k in hit && k in t && l in t && l != k ensures !Collides(c, t[k], t[l], l in hit, update, fields) {
        assert !SameOn(c, t[k], t[l], fields);
      }
    }
  }

  lemma DeleteKeepsUnique(c: Clock, m: Model, t: Rows, where: seq<Condition>)
    requires RowsUnique(c, m, t)
    ensures RowsUnique(c, m, KeptRows(c, t, where))
  {
    var u := KeptRows(c, t, where);
    forall f | f in m.uniqueFields ensures FieldUnique(c, u, f) {
      assert FieldUnique(c, t, f);
    }
    forall i | 0 <= i < |m.uniqueIndexes| ensures IndexUnique(c, u, m.uniqueIndexes[i]) {
      assert IndexUnique(c, t, m.uniqueIndexes[i]);
    }
  }

  /** An update keeps the database unique if and only if it fits the table it finds. */
  lemma UpdateStep(c: Clock, s: Schema, db: Database, cmd: Command)
    requires Unique(c, s, db) && cmd.Update?
    ensures Unique(c, s, Step(c, s, db, cmd).0) <==> CarefulStep(c, s, db, cmd)
  {
    var model := cmd.model;
    if model in db && GetModel(s, model).Some? {
      UniqueAfterUpdate(c, GetModel(s, model).value, db[model], cmd.where, cmd.update);
      hide RowsUnique, UpdateFits, UpdatedRows, Matching;
      assert Step(c, s, db, cmd).0[model] == UpdatedRows(c, db[model], cmd.where, cmd.update);
    }
  }

  lemma {:induction false} StepKeepsUnique(c: Clock, s: Schema, db: Database, cmd: Command)
    requires Unique(c, s, db)
    ensures UniqueThroughStep(c, s, db, cmd) <==> CarefulStep(c, s, db, cmd)
    ensures CarefulStep(c, s, db, cmd) ==> Unique(c, s, Step(c, s, db, cmd).0)
    decreases cmd
  {
    match cmd
    case Create(model, data, _) =>
      if Inserted(c, s, db, model, data).Ok? {
        InsertKeepsUnique(c, GetModel(s, model).value, TableOf(db, model), data);
      }
    case Update(_, _, _) => UpdateStep(c, s, db, cmd);
    case Delete(model, where) =>
      if model in db && GetModel(s, model).Some? {
        DeleteKeepsUnique(c, GetModel(s, model).value, db[model], where);
      }
    case Nested(body, _) => RunKeepsUnique(c, s, db, body);
    case Fail =>
  }

  /** A run of insertions, deletions, updates and nested transactions keeps all unique fields and
      composite unique indexes pairwise distinct throughout if and only if every update it reaches
      fits the tables it finds; an outer transaction, committed or rolled back, then does too. */
  lemma {:induction false} RunKeepsUnique(c: Clock, s: Schema, db: Database, script: seq<Command>)
    requires Unique(c, s, db)
    ensures UniqueThroughout(c, s, db, script) <==> Careful(c, s, db, script)
    ensures Careful(c, s, db, script) ==> Unique(c, s, Run(c, s, db, script).0)
    ensures Careful(c, s, db, script) ==> Unique(c, s, Transact(c, s, db, script).0)
    decreases script
  {
    if script != [] {
      StepKeepsUnique(c, s, db, script[0]);
      hide Unique, CarefulStep, UniqueThroughStep;
      if CarefulStep(c, s, db, script[0]) && Step(c, s, db, script[0]).1 {
        RunKeepsUnique(c, s, Step(c, s, db, script[0]).0, script[1..]);
      }
    }
  }

  /** Scripts whose updates leave guarded columns alone are careful wherever they start. */
  lemma {:induction false} UnguardedIsCareful(c: Clock, s: Schema, db: Database, script: seq<Command>)
    requires Unique(c, s, db) && Unguarded(s, script)
    ensures Careful(c, s, db, script)
    decreases script
  {
    if script != [] {
      assert UnguardedStep(s, script[0]);
      UnguardedStepIsCareful(c, s, db, script[0]);
      StepKeepsUnique(c, s, db, script[0]);
      assert forall i :: 0 <= i < |script[1..]| ==> script[1..][i] == script[i + 1];
      hide Unique, CarefulStep, UnguardedStep;
      UnguardedIsCareful(c, s, Step(c, s, db, script[0]).0, script[1..]);
    }
  }

  lemma {:induction false} UnguardedStepIsCareful(c: Clock, s: Schema, db: Database, cmd: Command)
    requires Unique(c, s, db) && UnguardedStep(s, cmd)
    ensures CarefulStep(c, s, db, cmd)
    decreases cmd
  {
    match cmd
    case Update(model, where, update) =>
      if model in db && GetModel(s, model).Some? {
        UnguardedFits(c, GetModel(s, model).value, db[model], where, update);
      }
    case Nested(body, _) => UnguardedIsCareful(c, s, db, body);
    case _ =>
  }

  /** Updates check no constraint: any update writing a unique column in two rows or more
      leaves duplicates behind. */
  lemma UncheckedUpdate(c: Clock, s: Schema, db: Database, model: string, where: seq<Condition>, update: Row, f: string)
    requires model in db && GetModel(s, model).Some? && f in GetModel(s, model).value.uniqueFields
    requires f in update && update[f] != Nil
    requires |Matching(c, db[model], where)| > 1
    ensures !Unique(c, s, Updated(c, db, model, where, update))
  {
    var hit := Matching(c, db[model], where);
    var k :| k in hit;
    assert |hit - {k}| > 0;
    var l :| l in hit - {k};
    var u := UpdatedRows(c, db[model], where, update);
    assert u[k][f] == u[l][f] == update[f];
    assert !FieldUnique(c, u, f);
  }

  /** A failed nested transaction whose error is ignored leaves its effects in place, while a
      failed outer one leaves nothing. */
  lemma NestedEffectsStay(c: Clock, s: Schema, db: Database, body: seq<Command>)
    requires !Run(c, s, db, body).1
    ensures Transact(c, s, db, [Nested(body, true)]) == (Run(c, s, db, body).0, true)
    ensures Transact(c, s, db, [Nested(body, false)]) == (db, false)
  {
    var script := [Nested(body, true)];
    assert script[1..] == [];
    assert Run(c, s, db, script) == Run(c, s, Step(c, s, db, script[0]).0, []);
    var aborting := [Nested(body, false)];
    assert Step(c, s, db, aborting[0]) == (Run(c, s, db, body).0, false);
  }

  lemma NothingSwept(t: Rows, want: set<string>, update: Row)
    requires want <= t.Keys
    ensures want - t.Keys == {} && WithUpdated(t, want - t.Keys, update) == t
  {
  }

  lemma AllSwept(want: set<string>, keys: set<string>)
    requires keys == {}
    ensures want - keys == want
  {
  }

  lemma SkippingKeepsSwept(want: set<string>, keys: set<string>, k: string)
    requires k !in want
    ensures want - (keys - {k}) == want - keys
  {
  }

  /** One more wanted row changed. */
  lemma UpdateSweeps(t: Rows, want: set<string>, keys: set<string>, k: string, update: Row)
    requires k in keys && k in t && k in want
    ensures want - (keys - {k}) == (want - keys) + {k}
    ensures |want - (keys - {k})| == |want - keys| + 1
    ensures var held := WithUpdated(t, want - keys, update);
      WithUpdated(t, want - (keys - {k}), update) == held[k := held[k] + update]
  {
    assert want - (keys - {k}) == (want - keys) + {k};
  }

  /** Only an existing row makes a keyed insertion fail, so a refusal creates no table. */
  lemma KeyedInsertion(c: Clock, s: Schema, db: Database, model: string, data: Row)
    requires GetModel(s, model).Some? && KeyOf(c, GetModel(s, model).value, data) != ""
    ensures var (m, t) := (GetModel(s, model).value, TableOf(db, model));
      var k := KeyOf(c, m, data);
      if k !in t && Fits(c, m, t, data) then
        Inserted(c, s, db, model, data) == Ok(db[model := t][model := t[k := data]])
      else Inserted(c, s, db, model, data) == Err(Conflict) && db[model := t] == db
  {
    var m, t := GetModel(s, model).value, TableOf(db, model);
    if model !in db {
      assert Fits(c, m, t, data);
    }
    assert db[model := t][model := t[KeyOf(c, m, data) := data]] == db[model := t[KeyOf(c, m, data) := data]];
  }

  // ---------------------------------------------------------------- the adapter on the heap

  /** A row map: shared by reference, changed in place. */
  class RowMap {
    var cells: Row

    constructor (cells: Row)
      ensures this.cells == cells
    {
      this.cells := cells;
    }

    /** row[k] = v for every entry of the update. */
    method Assign(update: Row)
      modifies this
      ensures cells == old(cells) + update
    {
      var keys := update.Keys;
      ghost var done: set<string> := {};
      while keys != {}
        invariant keys <= update.Keys && done == update.Keys - keys
        invariant cells == old(cells) + (map k | k in done :: update[k])
        decreases keys
      {
        var k :| k in keys;
        cells := cells[k := update[k]];
        keys, done := keys - {k}, done + {k};
      }
      assert (map k | k in done :: update[k]) == update;
    }
  }

  class TableMap {
    var rows: map<string, RowMap>

    constructor ()
      ensures rows == map[]
    {
      rows := map[];
    }

    ghost predicate Valid()
      reads this
    {
      forall k, l :: k in rows && l in rows && k != l ==> rows[k] != rows[l]
    }

    function Held(): Rows
      reads this, rows.Values
    {
      map k | k in rows :: rows[k].cells
    }

    /** Whether another row already has the value of this unique field. */
    method CheckField(c: Clock, data: Row, f: string) returns (taken: bool)
      ensures taken == FieldTaken(c, Held(), data, f)
    {
      taken := false;
      if f in data && data[f] != Nil {
        var keys := rows.Keys;
        while keys != {}
          invariant keys <= rows.Keys
          invariant forall k :: k in rows.Keys - keys && f in rows[k].cells ==>
            !MatchEqual(c, rows[k].cells[f], data[f])
          decreases keys
        {
          var k :| k in keys;
          if f in rows[k].cells && MatchEqual(c, rows[k].cells[f], data[f]) {
            assert k in Held() && f in Held()[k];
            return true;
          }
          keys := keys - {k};
        }
      }
    }

    method CheckIndex(c: Clock, data: Row, fields: seq<string>) returns (taken: bool)
      ensures taken == IndexTaken(c, Held(), data, fields)
    {
      var keys := rows.Keys;
      while keys != {}
        invariant keys <= rows.Keys
        invariant forall k :: k in rows.Keys - keys ==> !SameOn(c, data, rows[k].cells, fields)
        decreases keys
      {
        var k :| k in keys;
        var allMatch := true;
        for i := 0 to |fields|
          invariant allMatch == forall j :: 0 <= j < i ==>
            fields[j] in data && fields[j] in rows[k].cells
              && MatchEqual(c, data[fields[j]], rows[k].cells[fields[j]])
        {
          var f := fields[i];
          if f !in data || f !in rows[k].cells || !MatchEqual(c, data[f], rows[k].cells[f]) {
            allMatch := false;
          }
        }
        if allMatch {
          assert SameOn(c, data, Held()[k], fields);
          return true;
        }
        keys := keys - {k};
      }
      taken := false;
    }

    /** Changes one row in place; no other row shares its object. */
    method UpdateRow(k: string, update: Row)
      requires Valid() && k in rows
      modifies rows[k]
      ensures rows == old(rows)
      ensures Held() == old(Held())[k := old(Held())[k] + update]
    {
      rows[k].Assign(update);
    }

    /** Changes the matching rows in place. */
    method UpdateRows(c: Clock, where: seq<Condition>, update: Row) returns (count: nat)
      requires Valid()
      modifies rows.Values
      ensures Held() == UpdatedRows(c, old(Held()), where, update)
      ensures count == |Matching(c, old(Held()), where)|
    {
      ghost var before, want := Held(), Matching(c, Held(), where);
      var keys := rows.Keys;
      count := 0;
      NothingSwept(before, want, update);
      while keys != {}
        invariant rows == old(rows) && keys <= old(rows.Keys)
        invariant Held() == WithUpdated(before, want - keys, update) && count == |want - keys|
        decreases keys
      {
        var k :| k in keys;
        if MatchConditions(c, rows[k].cells, where) {
          UpdateSweeps(before, want, keys, k, update);
          UpdateRow(k, update);
          count := count + 1;
        } else {
          SkippingKeepsSwept(want, keys, k);
        }
        keys := keys - {k};
      }
      AllSwept(want, keys);
    }

    /** Collects the matching keys, then removes them. */
    method DeleteRows(c: Clock, where: seq<Condition>) returns (count: nat)
      requires Valid()
      modifies this
      ensures Valid() && forall k :: k in rows ==> k in old(rows) && rows[k] == old(rows[k])
      ensures Held() == KeptRows(c, old(Held()), where)
      ensures count == |Matching(c, old(Held()), where)|
    {
      var toDelete := set k | k in rows && MatchConditions(c, rows[k].cells, where);
      count := |toDelete|;
      assert toDelete == Matching(c, Held(), where);
      rows := rows - toDelete;
    }

    /** A table with fresh copies of all rows. */
    method Clone() returns (copy: TableMap, ghost repr: set<object>)
      requires Valid()
      ensures fresh(repr) && copy in repr && copy.Valid() && copy.Held() == Held()
      ensures forall k :: k in copy.rows ==> copy.rows[k] in repr
    {
      copy := new TableMap();
      repr := {copy};
      var keys := rows.Keys;
      while keys != {}
        invariant keys <= rows.Keys && copy.rows.Keys == rows.Keys - keys
        invariant fresh(repr) && copy in repr && copy.Valid()
        invariant forall k :: k in copy.rows ==> copy.rows[k] in repr && copy.rows[k].cells == rows[k].cells
        decreases keys
      {
        var k :| k in keys;
        var row := new RowMap(rows[k].cells);
        copy.rows := copy.rows[k := row];
        repr := repr + {row};
        keys := keys - {k};
      }
      assert copy.Held() == Held();
    }

    /** Whether no unique field and no unique index of the model is taken. */
    method Admits(c: Clock, m: Model, data: Row) returns (ok: bool)
      ensures ok == Fits(c, m, Held(), data)
    {
      var fields := m.uniqueFields;
      while fields != {}
        invariant fields <= m.uniqueFields
        invariant forall f :: f in m.uniqueFields - fields ==> !FieldTaken(c, Held(), data, f)
        decreases fields
      {
        var f :| f in fields;
        var taken := CheckField(c, data, f);
        if taken {
          return false;
        }
        fields := fields - {f};
      }
      for i := 0 to |m.uniqueIndexes|
        invariant forall j :: 0 <= j < i ==> !IndexTaken(c, Held(), data, m.uniqueIndexes[j])
      {
        var taken := CheckIndex(c, data, m.uniqueIndexes[i]);
        if taken {
          return false;
        }
      }
      ok := true;
    }

    method Insert(k: string, data: Row)
      requires Valid() && k !in rows
      modifies this
      ensures Valid() && Held() == old(Held())[k := data]
      ensures k in rows && rows == old(rows)[k := rows[k]] && fresh(rows[k])
    {
      var row := new RowMap(data);
      rows := rows[k := row];
    }
  }

  /** No table and no row is shared, and all of them are in the footprint. */
  ghost predicate Separate(tables: map<string, TableMap>, repr: set<object>)
    reads repr
  {
    && (forall m :: m in tables ==> tables[m] in repr && tables[m].Valid())
    && (forall m, k :: m in tables && k in tables[m].rows ==> tables[m].rows[k] in repr)
    && (forall m, n :: m in tables && n in tables && m != n ==>
      tables[m] != tables[n] && tables[m].rows.Values !! tables[n].rows.Values)
  }

  ghost function HeldBy(tables: map<string, TableMap>, repr: set<object>): Database
    requires Separate(tables, repr)
    reads repr
  {
    map m | m in tables :: tables[m].Held()
  }

  lemma OneMoreKey<K, V>(f: map<K, V>, left: set<K>, k: K)
    requires k in f && k in left
    ensures f - (left - {k}) == (f - left)[k := f[k]]
  {
  }

  lemma OneMoreTable(tables: map<string, TableMap>, repr: set<object>, m: string, t: TableMap, more: set<object>)
    requires Separate(tables, repr) && m !in tables
    requires t.Valid() && t in more && (forall k :: k in t.rows ==> t.rows[k] in more) && more !! repr
    ensures Separate(tables[m := t], repr + more)
    ensures HeldBy(tables[m := t], repr + more) == HeldBy(tables, repr)[m := t.Held()]
  {
    forall n | n in tables ensures tables[n] != t && tables[n].rows.Values !! t.rows.Values {
    }
  }

  class Adapter {
    const schema: Schema
    var tables: map<string, TableMap>
    ghost var repr: set<object>

    constructor (schema: Schema)
      ensures Valid() && repr == {} && this.schema == schema && Contents() == map[]
    {
      this.schema := schema;
      tables := map[];
      repr := {};
    }

    ghost predicate Valid()
      reads this, repr
    {
      this !in repr && Separate(tables, repr)
    }

    ghost function Contents(): Database
      requires Valid()
      reads this, repr
    {
      HeldBy(tables, repr)
    }

    /** Tables share no row, so changing one table leaves the others as they were. */
    twostate lemma OneTableChanged(model: string)
      requires old(Valid()) && Valid() && tables == old(tables) && model in tables
      requires forall m :: m in tables && m != model ==> unchanged(tables[m])
      requires forall m, k :: m in tables && m != model && k in tables[m].rows ==> unchanged(tables[m].rows[k])
      ensures Contents() == old(Contents())[model := tables[model].Held()]
    {
      forall m | m in tables && m != model ensures tables[m].Held() == old(tables[m].Held()) {
      }
    }

    method AddTable(model: string)
      requires Valid() && model !in tables
      modifies this
      ensures Valid() && model in tables && fresh(repr - old(repr))
      ensures Contents() == old(Contents())[model := map[]]
    {
      var t := new TableMap();
      assert t.Held() == map[];
      OneMoreTable(tables, repr, model, t, {t});
      tables, repr := tables[model := t], repr + {t};
    }

    /** The table of a model is created empty on the first insertion. */
    method OpenTable(model: string)
      requires Valid()
      modifies this
      ensures Valid() && model in tables && fresh(repr - old(repr))
      ensures Contents() == old(Contents())[model := TableOf(old(Contents()), model)]
    {
      if model !in tables {
        AddTable(model);
      } else {
        assert Contents() == Contents()[model := Contents()[model]];
      }
    }

    method Fill(model: string, k: string, data: Row)
      requires Valid() && model in tables && k !in tables[model].rows
      modifies this, tables[model]
      ensures Valid() && tables == old(tables) && fresh(repr - old(repr))
      ensures Contents() == old(Contents())[model := old(Contents())[model][k := data]]
    {
      tables[model].Insert(k, data);
      repr := repr + {tables[model].rows[k]};
      OneTableChanged(model);
    }

    /** Inserts unless the key, a unique field or a unique index is taken. */
    method InsertUnlessTaken(c: Clock, m: Model, model: string, k: string, data: Row) returns (ok: bool)
      requires Valid() && model in tables
      modifies this, tables[model]
      ensures Valid() && tables == old(tables) && fresh(repr - old(repr))
      ensures var t := old(Contents())[model];
        && ok == (k !in t && Fits(c, m, t, data))
        && Contents() == if ok then old(Contents())[model := t[k := data]] else old(Contents())
    {
      ok := k !in tables[model].rows;
      if ok {
        ok := tables[model].Admits(c, m, data);
      }
      if ok {
        Fill(model, k, data);
      }
    }

    method Create(c: Clock, model: string, data: Row) returns (r: Result<Row, Error>)
      requires Valid()
      modifies this, repr
      ensures Valid() && fresh(repr - old(repr))
      ensures match Inserted(c, schema, old(Contents()), model, data)
        case Ok(next) => r == Ok(data) && Contents() == next
        case Err(e) => r == Err(e) && Contents() == old(Contents())
    {
      var found := GetModel(schema, model);
      if found.None? {
        return Err(ModelNotFound);
      }
      var m := found.value;
      var key := KeyOf(c, m, data);
      if key == "" {
        return Err(Conflict);
      }
      KeyedInsertion(c, schema, Contents(), model, data);
      OpenTable(model);
      var ok := InsertUnlessTaken(c, m, model, key, data);
      r := if ok then Ok(data) else Err(Conflict);
    }

    /** Any one matching row, as a copy. */
    method FindOne(c: Clock, model: string, where: seq<Condition>) returns (r: Result<Row, Error>)
      requires Valid()
      ensures r.Ok? <==> Matching(c, TableOf(Contents(), model), where) != {}
      ensures match r
        case Ok(row) => exists k :: k in Matching(c, TableOf(Contents(), model), where) && Contents()[model][k] == row
        case Err(e) => e == NotFound
    {
      if model !in tables {
        return Err(NotFound);
      }
      var t := tables[model];
      assert TableOf(Contents(), model) == t.Held();
      var keys := t.rows.Keys;
      while keys != {}
        invariant keys <= t.rows.Keys
        invariant Matching(c, t.Held(), where) <= keys
        decreases keys
      {
        var k :| k in keys;
        if MatchConditions(c, t.rows[k].cells, where) {
          assert k in Matching(c, t.Held(), where);
          return Ok(t.rows[k].cells);
        }
        keys := keys - {k};
      }
      r := Err(NotFound);
    }

    method Update(c: Clock, model: string, where: seq<Condition>, update: Row) returns (count: nat)
      requires Valid()
      modifies repr
      ensures Valid()
      ensures Contents() == Updated(c, old(Contents()), model, where, update)
      ensures count == |Matching(c, TableOf(old(Contents()), model), where)|
    {
      if model in tables {
        count := tables[model].UpdateRows(c, where, update);
        OneTableChanged(model);
      } else {
        count := 0;
      }
    }

    method Delete(c: Clock, model: string, where: seq<Condition>) returns (count: nat)
      requires Valid()
      modifies repr
      ensures Valid()
      ensures Contents() == Deleted(c, old(Contents()), model, where)
      ensures count == |Matching(c, TableOf(old(Contents()), model), where)|
    {
      if model in tables {
        count := tables[model].DeleteRows(c, where);
        OneTableChanged(model);
      } else {
        count := 0;
      }
    }

    /** A deep copy sharing no table and no row with the adapter. */
    method CloneTables() returns (copy: map<string, TableMap>, ghost copyRepr: set<object>)
      requires Valid()
      ensures Separate(copy, copyRepr) && HeldBy(copy, copyRepr) == Contents()
      ensures fresh(copyRepr)
    {
      copy, copyRepr := map[], {};
      var names := tables.Keys;
      while names != {}
        invariant names <= tables.Keys && copy.Keys == tables.Keys - names
        invariant fresh(copyRepr) && Separate(copy, copyRepr)
        invariant HeldBy(copy, copyRepr) == Contents() - names
        decreases names
      {
        var m :| m in names;
        var t;
        ghost var more;
        t, more := tables[m].Clone();
        OneMoreTable(copy, copyRepr, m, t, more);
        OneMoreKey(Contents(), names, m);
        copy, copyRepr := copy[m := t], copyRepr + more;
        names := names - {m};
      }
    }

    method Restore(snapshot: map<string, TableMap>, ghost snapshotRepr: set<object>)
      requires Separate(snapshot, snapshotRepr) && this !in snapshotRepr
      modifies this
      ensures Valid() && repr == snapshotRepr && Contents() == old(HeldBy(snapshot, snapshotRepr))
    {
      tables, repr := snapshot, snapshotRepr;
    }

    method Execute(c: Clock, cmd: Command) returns (ok: bool)
      requires Valid()
      modifies this, repr
      ensures Valid() && fresh(repr - old(repr))
      ensures (Contents(), ok) == Step(c, schema, old(Contents()), cmd)
      decreases cmd
    {
      match cmd
      case Create(model, data, ignoreError) =>
        var r := Create(c, model, data);
        ok := r.Ok? || ignoreError;
      case Update(model, where, update) =>
        var _ := Update(c, model, where, update);
        ok := true;
      case Delete(model, where) =>
        var _ := Delete(c, model, where);
        ok := true;
      case Nested(body, ignoreError) =>
        var succeeded := Transaction(c, body, true);
        ok := succeeded || ignoreError;
      case Fail =>
        ok := false;
    }

    method RunScript(c: Clock, script: seq<Command>) returns (ok: bool)
      requires Valid()
      modifies this, repr
      ensures Valid() && fresh(repr - old(repr))
      ensures (Contents(), ok) == Run(c, schema, old(Contents()), script)
      decreases script, 0
    {
      if script == [] {
        return true;
      }
      ok := Execute(c, script[0]);
      if ok {
        ok := RunScript(c, script[1..]);
      }
    }

    /** Runs the function; if it fails, the snapshot becomes the tables. */
    method RunOuter(c: Clock, script: seq<Command>) returns (ok: bool)
      requires Valid()
      modifies this, repr
      ensures Valid() && fresh(repr - old(repr))
      ensures (Contents(), ok) == Transact(c, schema, old(Contents()), script)
      decreases script, 1
    {
      var snapshot;
      ghost var snapshotRepr;
      snapshot, snapshotRepr := CloneTables();
      ok := RunScript(c, script);
      if !ok {
        Restore(snapshot, snapshotRepr);
      }
    }

    /** Joins an open transaction or starts one. */
    method Transaction(c: Clock, script: seq<Command>, inTx: bool) returns (ok: bool)
      requires Valid()
      modifies this, repr
      ensures Valid() && fresh(repr - old(repr))
      ensures inTx ==> (Contents(), ok) == Run(c, schema, old(Contents()), script)
      ensures !inTx ==> (Contents(), ok) == Transact(c, schema, old(Contents()), script)
      ensures !inTx && !ok ==> Contents() == old(Contents())
      decreases script, 2
    {
      if inTx {
        ok := RunScript(c, script);
      } else {
        ok := RunOuter(c, script);
      }
    }
  }
}

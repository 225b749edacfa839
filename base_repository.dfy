/**
 * The generic repository: `get`, `get_multi`, `create`, `update` and
 * `remove`, over one table. The session's view of a table is the class
 * `Table`; every commit replaces its rows at once, and a commit that the
 * database refuses leaves them as they were.
 */
module BaseRepository {
  import opened Wrappers
  import opened Models
  import opened Query

  /** What a refused call raises: an unknown constructor keyword (TypeError), a
      value of the wrong type or length (DataError), a NOT NULL, primary key
      or UNIQUE violation (IntegrityError), `remove` of a missing id
      (ValueError), or a refresh of an object the session does not hold
      (InvalidRequestError). */
  datatype DbError = InvalidKeyword | DataError | IntegrityError | NotFound(id: int) | InvalidRequest

  /** How far a refused INSERT moves the id sequence. PostgreSQL draws the id
      when it builds the row, before it checks the constraints; a value that
      is not of its column's type or length is refused before that. */
  function Consumed(e: DbError): nat {
    if e == IntegrityError then 1 else 0
  }

  /** Some stored row has the id. */
  predicate IdTaken(rows: seq<Row>, id: int) {
    exists r :: r in rows && r.id == id
  }

  /** The id sequence is past every stored id. */
  predicate IdsBelow(rows: seq<Row>, nextId: int) {
    forall r :: r in rows ==> r.id < nextId
  }

  /** Payloads of the request schemas never name id, created_at or updated_at. */
  predicate NoBaseColumns(p: Record) {
    forall c :: c in p ==> c !in BaseColumns
  }

  /** The payload sets the column to a value other than NULL. */
  predicate Given(p: Record, c: ColumnName) {
    c in p && p[c] != Null
  }

  /** The condition `Model.id == id`. */
  function ById(id: int): seq<Criterion> {
    [Equals(Id, Int(id))]
  }

  lemma MatchesById(id: int)
    ensures forall r: Row {:trigger Matches(ById(id), r)} :: Matches(ById(id), r) <==> r.id == id
  {
    forall r: Row ensures Matches(ById(id), r) <==> r.id == id {
      assert ById(id)[0] == Equals(Id, Int(id));
    }
  }

  /** `get(id)`: the row with that id, or None exactly when there is none. */
  function Get(rows: seq<Row>, id: int): (r: Option<Row>)
    ensures r.Some? <==> exists x :: x in rows && x.id == id
    ensures r.Some? ==> r.value in rows && r.value.id == id
  {
    MatchesById(id);
    First(rows, ById(id))
  }

  /** Ids are distinct in a valid table, so `get` of a stored id finds that row. */
  lemma StoredFound(schema: TableSchema, rows: seq<Row>, r: Row)
    requires RowsValid(schema, rows) && r in rows
    ensures Get(rows, r.id) == Some(r)
  {
    var k :| 0 <= k < |rows| && rows[k] == r;
    GetStored(schema, rows, k);
  }

  lemma GetStored(schema: TableSchema, rows: seq<Row>, i: int)
    requires RowsValid(schema, rows) && 0 <= i < |rows|
    ensures Get(rows, rows[i].id) == Some(rows[i])
  {
    var r := Get(rows, rows[i].id).value;
    var j :| 0 <= j < |rows| && rows[j] == r;
    assert forall a :: 0 <= a < |rows| && a != i ==> rows[a].id != rows[i].id;
  }

  /** `get_multi(skip, limit)`: the storage-order slice from `skip` holding at
      most `limit` rows; it is short only where the table ends. */
  function GetMulti(rows: seq<Row>, skip: nat, limit: nat): (r: seq<Row>)
    ensures |r| <= limit
    ensures r != [] ==> skip + |r| <= |rows|
    ensures forall i :: 0 <= i < |r| ==> r[i] == rows[skip + i]
    ensures skip < |rows| ==> skip + |r| == |rows| || |r| == limit
  {
    RunPlain(rows, skip, Some(limit));
    Run(rows, Query([], [], skip, Some(limit)))
  }

  /** The position of the row with that id, or -1. */
  function IndexOf(rows: seq<Row>, id: int): (i: int)
    ensures -1 <= i < |rows|
    ensures i >= 0 ==> rows[i].id == id && forall j :: 0 <= j < i ==> rows[j].id != id
    ensures i < 0 <==> forall r :: r in rows ==> r.id != id
  {
    if rows == [] then -1
    else if rows[0].id == id then 0
    else
      var k := IndexOf(rows[1..], id);
      assert forall r :: r in rows ==> r == rows[0] || r in rows[1..];
      if k < 0 then -1 else k + 1
  }

  // ---------------------------------------------------------------------------
  // What the database accepts

  /** Why the database refuses to store a record, if it does. */
  function RecordError(schema: TableSchema, rec: Record): (e: Option<DbError>)
    ensures e.None? <==> WellTyped(schema, rec) && WithinLengths(schema, rec) && NonNull(schema, rec)
    ensures e.Some? ==> e.value == DataError || e.value == IntegrityError
    ensures e == Some(DataError) <==> !WellTyped(schema, rec) || !WithinLengths(schema, rec)
  {
    if !WellTyped(schema, rec) || !WithinLengths(schema, rec) then Some(DataError)
    else if !NonNull(schema, rec) then Some(IntegrityError)
    else None
  }

  lemma MaterializeKeys(schema: TableSchema, payload: Record)
    ensures Materialize(schema, payload).Keys == schema.columns.Keys
    ensures forall c :: c in payload && c in schema.columns && payload[c] != Null ==> Materialize(schema, payload)[c] == payload[c]
  {
  }

  /** One column of the built record: the payload's value, or the default. */
  lemma MaterializeAt(schema: TableSchema, payload: Record, c: ColumnName)
    requires c in schema.columns
    ensures c in Materialize(schema, payload)
    ensures Materialize(schema, payload)[c] == if PayloadField(payload, c) != Null then payload[c] else schema.columns[c].default
  {
  }

  /** Why `Model(**payload)` followed by an INSERT fails, if it does: an unknown
      keyword, then the record's own faults, then a collision on a unique index
      with a stored row. */
  function InsertError(schema: TableSchema, rows: seq<Row>, payload: Record): (e: Option<DbError>)
    ensures e.None? <==>
      && payload.Keys <= schema.columns.Keys
      && Conforms(schema, Materialize(schema, payload))
      && forall r :: r in rows ==> !Clashes(schema, Materialize(schema, payload), r.cols)
    ensures e.Some? ==> !e.value.NotFound?
  {
    MaterializeKeys(schema, payload);
    if !(payload.Keys <= schema.columns.Keys) then Some(InvalidKeyword)
    else
      var rec := Materialize(schema, payload);
      if RecordError(schema, rec).Some? then RecordError(schema, rec)
      else if exists r :: r in rows && Clashes(schema, rec, r.cols) then Some(IntegrityError)
      else None
  }

  /** A collision on a unique index goes both ways. */
  lemma ClashesSymmetric(schema: TableSchema, a: Record, b: Record)
    requires Clashes(schema, a, b)
    ensures Clashes(schema, b, a)
  {
    var key :| key in schema.uniqueKeys && ClashOn(key, a, b);
    assert ClashOn(key, b, a);
  }

  /** Why `create` is refused, if it is: the insert's own faults, then a
      collision of the id the sequence hands out with a stored row's id. */
  function CreateError(schema: TableSchema, rows: seq<Row>, nextId: int, payload: Record): (e: Option<DbError>)
    ensures e.None? <==> InsertError(schema, rows, payload).None? && !IdTaken(rows, nextId)
    ensures IdsBelow(rows, nextId) ==> e == InsertError(schema, rows, payload)
  {
    if InsertError(schema, rows, payload).Some? then InsertError(schema, rows, payload)
    else if IdTaken(rows, nextId) then Some(IntegrityError)
    else None
  }

  /** The row `create` stores: the next id, both timestamps `now`. */
  function NewRow(nextId: int, now: int, rec: Record): Row {
    Row(nextId, Time(now), Time(now), rec)
  }

  /** The rows a bulk insert of `payloads` adds, ids counting up from `nextId`,
      or the first error. Each payload is checked against the stored rows and
      the ones before it in the batch; one failure fails the whole batch. */
  function BatchInsert(schema: TableSchema, rows: seq<Row>, nextId: int, payloads: seq<Record>, now: int): (r: Result<seq<Row>, DbError>)
    ensures r.Success? ==> |r.value| == |payloads|
    ensures r.Success? ==> forall k :: 0 <= k < |payloads| ==>
      r.value[k] == NewRow(nextId + k, now, Materialize(schema, payloads[k]))
    ensures payloads == [] ==> r == Success([])
    decreases |payloads|
  {
    if payloads == [] then Success([])
    else if CreateError(schema, rows, nextId, payloads[0]).Some? then Failure(CreateError(schema, rows, nextId, payloads[0]).value)
    else
      var row := NewRow(nextId, now, Materialize(schema, payloads[0]));
      var rest := BatchInsert(schema, rows + [row], nextId + 1, payloads[1..], now);
      if rest.Failure? then rest
      else
        assert forall k :: 1 <= k < |payloads| ==> payloads[k] == payloads[1..][k - 1];
        Success([row] + rest.value)
  }

  // ---------------------------------------------------------------------------
  // The storage invariant under the three changes a commit makes

  lemma RowsValidAppend(schema: TableSchema, rows: seq<Row>, r: Row)
    requires RowsValid(schema, rows) && Conforms(schema, r.cols) && BaseTyped(r)
    requires forall x :: x in rows ==> x.id != r.id && !Clashes(schema, r.cols, x.cols)
    ensures RowsValid(schema, rows + [r])
  {
    var s := rows + [r];
    forall i, j | 0 <= i < j < |s| ensures s[i].id != s[j].id && !Clashes(schema, s[i].cols, s[j].cols) {
      if j == |rows| {
        assert s[i] in rows;
        if Clashes(schema, s[i].cols, s[j].cols) {
          ClashesSymmetric(schema, s[i].cols, s[j].cols);
        }
      }
    }
  }

  lemma RowsValidReplace(schema: TableSchema, rows: seq<Row>, i: int, r: Row)
    requires RowsValid(schema, rows) && 0 <= i < |rows| && Conforms(schema, r.cols) && BaseTyped(r)
    requires forall x :: x in rows && x.id != rows[i].id ==> x.id != r.id && !Clashes(schema, r.cols, x.cols)
    ensures RowsValid(schema, rows[i := r])
  {
    var s := rows[i := r];
    forall x | x in s ensures Conforms(schema, x.cols) && BaseTyped(x) {
      var k :| 0 <= k < |s| && s[k] == x;
      if k != i { assert x == rows[k] && rows[k] in rows; }
    }
    forall a, b | 0 <= a < b < |s| ensures s[a].id != s[b].id && !Clashes(schema, s[a].cols, s[b].cols) {
      if a == i {
        assert rows[b] in rows && rows[b].id != rows[i].id;
      } else if b == i {
        assert rows[a] in rows && rows[a].id != rows[i].id;
        if Clashes(schema, s[a].cols, s[b].cols) {
          ClashesSymmetric(schema, s[a].cols, s[b].cols);
        }
      }
    }
  }

  lemma RowsValidRemove(schema: TableSchema, rows: seq<Row>, i: int)
    requires RowsValid(schema, rows) && 0 <= i < |rows|
    ensures RowsValid(schema, rows[..i] + rows[i + 1..])
  {
    var s := rows[..i] + rows[i + 1..];
    forall a | 0 <= a < |s| ensures s[a] == rows[if a < i then a else a + 1] {
    }
    forall x | x in s ensures x in rows {
      var k :| 0 <= k < |s| && s[k] == x;
    }
    forall a, b | 0 <= a < b < |s| ensures s[a].id != s[b].id && !Clashes(schema, s[a].cols, s[b].cols) {
      var a', b' := if a < i then a else a + 1, if b < i then b else b + 1;
      assert s[a] == rows[a'] && s[b] == rows[b'] && a' < b';
    }
  }

  /** A bulk insert that succeeds keeps the table valid. */
  lemma {:induction false} BatchInsertValid(schema: TableSchema, rows: seq<Row>, nextId: int, payloads: seq<Record>, now: int)
    requires RowsValid(schema, rows)
    requires BatchInsert(schema, rows, nextId, payloads, now).Success?
    ensures RowsValid(schema, rows + BatchInsert(schema, rows, nextId, payloads, now).value)
    decreases |payloads|
  {
    if payloads != [] {
      var row := NewRow(nextId, now, Materialize(schema, payloads[0]));
      var rest := BatchInsert(schema, rows + [row], nextId + 1, payloads[1..], now);
      assert CreateError(schema, rows, nextId, payloads[0]).None?;
      assert rest.Success? && BatchInsert(schema, rows, nextId, payloads, now).value == [row] + rest.value;
      AppendAccepted(schema, rows, nextId, payloads[0], now);
      BatchInsertValid(schema, rows + [row], nextId + 1, payloads[1..], now);
      ConcatAssoc(rows, [row], rest.value);
    }
  }

  /** The closing loop of the batch creates, `db.refresh` on every object
      handed to `bulk_save_objects`: the bulk save does not attach the objects
      to the session, so once the commit is done the first refresh raises
      InvalidRequestError. Only an empty batch, or one the insert refused,
      comes back as it went in. */
  function Refreshed(stored: Result<seq<Row>, DbError>): Result<seq<Row>, DbError> {
    if stored.Success? && stored.value != [] then Failure(InvalidRequest) else stored
  }

  /** A table without unique indexes accepts every batch of payloads whose
      records fit it, and stores one row per payload. */
  lemma {:induction false} UnindexedBatchAccepted(schema: TableSchema, rows: seq<Row>, nextId: int, payloads: seq<Record>, now: int)
    requires schema.uniqueKeys == [] && IdsBelow(rows, nextId)
    requires forall p :: p in payloads ==> p.Keys <= schema.columns.Keys && Conforms(schema, Materialize(schema, p))
    ensures BatchInsert(schema, rows, nextId, payloads, now).Success?
    ensures |BatchInsert(schema, rows, nextId, payloads, now).value| == |payloads|
    decreases |payloads|
  {
    if payloads != [] {
      assert payloads[0] in payloads;
      assert InsertError(schema, rows, payloads[0]).None?;
      var row := NewRow(nextId, now, Materialize(schema, payloads[0]));
      assert forall p :: p in payloads[1..] ==> p in payloads;
      UnindexedBatchAccepted(schema, rows + [row], nextId + 1, payloads[1..], now);
    }
  }

  /** What request validation guarantees of a create payload: only columns
      of the table, each of its type, every NOT NULL column given, and no
      base column. */
  predicate CreatePayload(schema: TableSchema, p: Record) {
    && WellTyped(schema, p) && NoBaseColumns(p)
    && forall c :: c in schema.columns && !schema.columns[c].nullable ==> Given(p, c)
  }

  /** The record built from a validated payload whose strings fit their
      columns fits the table. */
  lemma CreatePayloadConforms(schema: TableSchema, p: Record)
    requires CreatePayload(schema, p) && WithinLengths(schema, p) && DefaultsTyped(schema)
    ensures p.Keys <= schema.columns.Keys
    ensures Conforms(schema, Materialize(schema, p))
  {
    var rec := Materialize(schema, p);
    MaterializeKeys(schema, p);
    forall c | c in rec ensures HasType(rec[c], schema.columns[c].ty) && FitsLength(rec[c], schema.columns[c].ty) {
      MaterializeAt(schema, p, c);
    }
    forall c | c in schema.columns && !schema.columns[c].nullable ensures c in rec && rec[c] != Null {
      MaterializeAt(schema, p, c);
    }
  }

  /** A table without unique indexes refuses a validated payload only for
      a string too long for its column (a data error) or a taken next id (an
      integrity error). */
  lemma UnindexedCreateError(schema: TableSchema, rows: seq<Row>, nextId: int, p: Record)
    requires schema.uniqueKeys == [] && CreatePayload(schema, p) && DefaultsTyped(schema)
    ensures CreateError(schema, rows, nextId, p) ==
      if !WithinLengths(schema, p) then Some(DataError)
      else if IdTaken(rows, nextId) then Some(IntegrityError)
      else None
  {
    if WithinLengths(schema, p) {
      CreatePayloadConforms(schema, p);
    } else {
      var c :| c in p && c in schema.columns && !FitsLength(p[c], schema.columns[c].ty);
      MaterializeAt(schema, p, c);
      assert !WithinLengths(schema, Materialize(schema, p));
    }
  }

  lemma ConcatAssoc(a: seq<Row>, b: seq<Row>, c: seq<Row>)
    ensures a + b + c == a + (b + c)
  {
  }

  /** An accepted insert keeps the table valid, and keeps the id sequence
      past every id. */
  lemma AppendAccepted(schema: TableSchema, rows: seq<Row>, nextId: int, payload: Record, now: int)
    requires RowsValid(schema, rows)
    requires CreateError(schema, rows, nextId, payload).None?
    ensures RowsValid(schema, rows + [NewRow(nextId, now, Materialize(schema, payload))])
    ensures IdsBelow(rows, nextId) ==> IdsBelow(rows + [NewRow(nextId, now, Materialize(schema, payload))], nextId + 1)
  {
    RowsValidAppend(schema, rows, NewRow(nextId, now, Materialize(schema, payload)));
  }

  /** Deleting the row at position i keeps the table valid, keeps every
      other row, and leaves no row with its id. */
  lemma RemoveStored(schema: TableSchema, rows: seq<Row>, i: int)
    requires RowsValid(schema, rows) && 0 <= i < |rows|
    ensures RowsValid(schema, rows[..i] + rows[i + 1..])
    ensures forall r :: r in rows && r.id != rows[i].id ==> r in rows[..i] + rows[i + 1..]
    ensures forall r :: r in rows[..i] + rows[i + 1..] ==> r in rows && r.id != rows[i].id
  {
    RowsValidRemove(schema, rows, i);
    var s := rows[..i] + rows[i + 1..];
    forall r | r in rows && r.id != rows[i].id ensures r in s {
      var k :| 0 <= k < |rows| && rows[k] == r;
      if k < i { assert s[k] == r; } else { assert k > i && s[k - 1] == r; }
    }
    forall r | r in s ensures r in rows && r.id != rows[i].id {
      var k :| 0 <= k < |s| && s[k] == r;
      if k < i {
        assert r == rows[k];
      } else {
        assert r == rows[k + 1];
      }
    }
  }

  // ---------------------------------------------------------------------------
  // Partial update

  /** The attributes `jsonable_encoder(db_obj)` lists for a loaded row: the
      base columns and the table's own columns, with their values. */
  function Attributes(r: Row): (a: Record)
    ensures a.Keys == BaseColumns + r.cols.Keys
    ensures forall c :: c in a ==> a[c] == Field(r, c)
  {
    map c | c in BaseColumns + r.cols.Keys :: Field(r, c)
  }

  /** The record after `setattr(obj, f, payload[f])` for every attribute f of
      the object that the payload names. */
  function Patch(cols: Record, payload: Record): (p: Record)
    ensures p.Keys == cols.Keys
  {
    map c | c in cols :: if c in payload then payload[c] else cols[c]
  }

  /** An empty payload changes nothing. */
  lemma PatchEmpty(cols: Record)
    ensures Patch(cols, map[]) == cols
  {
  }

  /** Applying the same payload twice is applying it once. */
  lemma PatchIdempotent(cols: Record, payload: Record)
    ensures Patch(Patch(cols, payload), payload) == Patch(cols, payload)
  {
  }

  /** Payload keys that are not attributes of the object are ignored. */
  lemma PatchIgnoresUnknown(cols: Record, payload: Record)
    ensures Patch(cols, payload) == Patch(cols, map c | c in payload && c in cols :: payload[c])
  {
  }

  /** Two updates in a row act as one whose payload is the second laid over
      the first. */
  lemma PatchCompose(cols: Record, p: Record, q: Record)
    ensures Patch(Patch(cols, p), q) == Patch(cols, p + q)
  {
  }

  /** The attribute loop of `update`: for each attribute of the object,
      take the payload's value when the payload names it. */
  method ApplyPayload(cols: Record, payload: Record) returns (data: Record)
    ensures data == Patch(cols, payload)
  {
    data := cols;
    var todo := cols.Keys;
    while todo != {}
      invariant todo <= cols.Keys && data.Keys == cols.Keys
      invariant forall c :: c in cols ==>
        data[c] == if c in payload && c !in todo then payload[c] else cols[c]
      decreases todo
    {
      var f :| f in todo;
      if f in payload {
        data := data[f := payload[f]];
      }
      todo := todo - {f};
    }
  }

  /** The payload sets some attribute of the object to a new value. */
  predicate Changes(obj: Row, payload: Record) {
    Patch(Attributes(obj), payload) != Attributes(obj)
  }

  /** A table's declaration together with its base columns, as an UPDATE of
      every attribute sees it: the primary key is NOT NULL and unique. */
  function WithBase(schema: TableSchema): TableSchema {
    TableSchema(schema.columns + BaseSpecs, [[Id]] + schema.uniqueKeys)
  }

  /** Why the database refuses to write the attribute values `data` to the row
      with id `id`, if it does: their own faults, or a collision with another
      stored row on the primary key or on a unique index. */
  function UpdateError(schema: TableSchema, rows: seq<Row>, id: int, data: Record): (e: Option<DbError>)
    ensures e.None? <==>
      && WellTyped(WithBase(schema), data) && WithinLengths(WithBase(schema), data) && NonNull(WithBase(schema), data)
      && forall r :: r in rows && r.id != id ==> !Clashes(WithBase(schema), data, Attributes(r))
  {
    if RecordError(WithBase(schema), data).Some? then RecordError(WithBase(schema), data)
    else if exists r :: r in rows && r.id != id && Clashes(WithBase(schema), data, Attributes(r)) then Some(IntegrityError)
    else None
  }

  /** The row an accepted UPDATE leaves: the new attribute values, with
      updated_at set to `now` unless the payload changed it itself. */
  function Updated(obj: Row, data: Record, now: int): Row {
    Row(
      if Id in data && data[Id].Int? then data[Id].i else obj.id,
      PayloadField(data, CreatedAt),
      if UpdatedAt in data && data[UpdatedAt] != obj.updatedAt then data[UpdatedAt] else Time(now),
      data - BaseColumns)
  }

  /** The updated row holds every patched attribute; updated_at is the
      payload's when it changed it, `now` otherwise. */
  lemma UpdatedAttributes(schema: TableSchema, obj: Row, data: Record, now: int)
    requires WellFormed(schema) && obj.cols.Keys == schema.columns.Keys
    requires data.Keys == Attributes(obj).Keys && data[Id].Int?
    ensures Attributes(Updated(obj, data, now)) ==
      data[UpdatedAt := if data[UpdatedAt] != obj.updatedAt then data[UpdatedAt] else Time(now)]
  {
    var row := Updated(obj, data, now);
    assert row.cols.Keys == obj.cols.Keys;
  }

  /** An UPDATE the database accepts keeps the table valid; the old row sits
      where `IndexOf` finds it. */
  lemma ReplaceStored(schema: TableSchema, rows: seq<Row>, obj: Row, data: Record, now: int)
    requires WellFormed(schema) && RowsValid(schema, rows) && obj in rows
    requires data.Keys == Attributes(obj).Keys
    requires UpdateError(schema, rows, obj.id, data).None?
    ensures 0 <= IndexOf(rows, obj.id) && rows[IndexOf(rows, obj.id)] == obj
    ensures RowsValid(schema, rows[IndexOf(rows, obj.id) := Updated(obj, data, now)])
    ensures Get(rows[IndexOf(rows, obj.id) := Updated(obj, data, now)], Updated(obj, data, now).id) == Some(Updated(obj, data, now))
  {
    var i := IndexOf(rows, obj.id);
    var k :| 0 <= k < |rows| && rows[k] == obj;
    assert forall a :: 0 <= a < |rows| && a != k ==> rows[a].id != rows[k].id;
    var row := Updated(obj, data, now);
    UpdatedConforms(schema, obj, data, now);
    forall x | x in rows && x.id != rows[i].id ensures x.id != row.id && !Clashes(schema, row.cols, x.cols) {
      assert !Clashes(WithBase(schema), data, Attributes(x));
      UpdatedKeepsApart(schema, obj, data, now, x);
    }
    RowsValidReplace(schema, rows, i, row);
    GetStored(schema, rows[i := row], i);
  }

  /** The updated row fits the table. */
  lemma UpdatedConforms(schema: TableSchema, obj: Row, data: Record, now: int)
    requires WellFormed(schema) && Conforms(schema, obj.cols)
    requires data.Keys == Attributes(obj).Keys
    requires WellTyped(WithBase(schema), data) && WithinLengths(WithBase(schema), data) && NonNull(WithBase(schema), data)
    ensures data[Id].Int?
    ensures Conforms(schema, Updated(obj, data, now).cols) && BaseTyped(Updated(obj, data, now))
  {
    var full := WithBase(schema);
    assert full.columns[Id] == Required(IntType) && full.columns[CreatedAt] == Nullable(TimeType);
    assert full.columns[UpdatedAt] == Nullable(TimeType);
    var cols := Updated(obj, data, now).cols;
    assert cols.Keys == schema.columns.Keys;
    forall c | c in schema.columns ensures full.columns[c] == schema.columns[c] {
      assert c !in BaseSpecs;
    }
  }

  /** An updated row that collides with no other row's attributes keeps its
      id and its unique keys apart from that row. */
  lemma UpdatedKeepsApart(schema: TableSchema, obj: Row, data: Record, now: int, x: Row)
    requires WellFormed(schema) && Conforms(schema, x.cols)
    requires data.Keys == Attributes(obj).Keys && data[Id].Int?
    requires !Clashes(WithBase(schema), data, Attributes(x))
    ensures x.id != Updated(obj, data, now).id
    ensures !Clashes(schema, Updated(obj, data, now).cols, x.cols)
  {
    var full := WithBase(schema);
    var row := Updated(obj, data, now);
    assert [Id] == full.uniqueKeys[0];
    assert !ClashOn([Id], data, Attributes(x));
    assert Id in data && Id in Attributes(x) && Attributes(x)[Id] == Int(x.id);
    if Clashes(schema, row.cols, x.cols) {
      var key :| key in schema.uniqueKeys && ClashOn(key, row.cols, x.cols);
      assert key in full.uniqueKeys;
      KeyClashLifts(key, row.cols, x, data);
    }
  }

  /** A collision of two rows' own columns is one of their attributes. */
  lemma KeyClashLifts(key: seq<ColumnName>, cols: Record, x: Row, data: Record)
    requires forall c :: c in key ==> c !in BaseColumns
    requires cols == data - BaseColumns
    requires ClashOn(key, cols, x.cols)
    ensures ClashOn(key, data, Attributes(x))
  {
    forall c | c in key ensures c in data && c in Attributes(x) && data[c] != Null && data[c] == Attributes(x)[c] {
      assert c in cols && c in x.cols && Field(x, c) == x.cols[c];
    }
  }

  // ---------------------------------------------------------------------------
  // The table

  class Table {
    const schema: TableSchema
    var rows: seq<Row>
    var nextId: int

    /** The declaration is well formed and the stored rows satisfy it. */
    ghost predicate Valid()
      reads this
    {
      WellFormed(schema) && RowsValid(schema, rows)
    }

    constructor(schema: TableSchema)
      requires WellFormed(schema)
      ensures this.schema == schema && rows == [] && nextId == 1
      ensures Valid() && IdsBelow(rows, nextId)
    {
      this.schema := schema;
      rows := [];
      nextId := 1;
    }

    /** `create(obj_in)`: builds the record from the payload and the column
        defaults and inserts it with the next id and both timestamps `now`;
        a refused insert leaves the rows as they were. */
    method Create(payload: Record, now: int) returns (res: Result<Row, DbError>)
      requires Valid() && NoBaseColumns(payload)
      modifies this
      ensures Valid()
      ensures res.Failure? <==> CreateError(schema, old(rows), old(nextId), payload).Some?
      ensures res.Failure? ==>
        && res.error == CreateError(schema, old(rows), old(nextId), payload).value
        && rows == old(rows) && nextId == old(nextId) + Consumed(res.error)
      ensures res.Success? ==>
        && res.value == NewRow(old(nextId), now, Materialize(schema, payload))
        && rows == old(rows) + [res.value] && nextId == old(nextId) + 1
      ensures res.Success? ==> Get(rows, res.value.id) == Some(res.value)
      ensures res.Success? ==> forall r :: r in old(rows) ==> r.id != res.value.id
      ensures IdsBelow(old(rows), old(nextId)) ==> IdsBelow(rows, nextId)
    {
      var err := CreateError(schema, rows, nextId, payload);
      if err.Some? {
        nextId := nextId + Consumed(err.value);
        return Failure(err.value);
      }
      var row := NewRow(nextId, now, Materialize(schema, payload));
      AppendAccepted(schema, rows, nextId, payload, now);
      rows := rows + [row];
      nextId := nextId + 1;
      GetStored(schema, rows, |rows| - 1);
      return Success(row);
    }

    /** `update(db_obj, obj_in)` on a freshly loaded row: sets each attribute
        the payload names, the id and the timestamps included, ignores payload
        keys that are not attributes, and writes the row only when something
        changed, refreshing updated_at unless the payload changed it. */
    method Update(obj: Row, payload: Record, now: int) returns (res: Result<Row, DbError>)
      requires Valid() && obj in rows
      modifies this
      ensures Valid() && nextId == old(nextId)
      ensures
        if !Changes(obj, payload) then res == Success(obj) && rows == old(rows)
        else if UpdateError(schema, old(rows), obj.id, Patch(Attributes(obj), payload)).Some? then
          res == Failure(UpdateError(schema, old(rows), obj.id, Patch(Attributes(obj), payload)).value) && rows == old(rows)
        else
          && res == Success(Updated(obj, Patch(Attributes(obj), payload), now))
          && rows == old(rows)[IndexOf(old(rows), obj.id) := res.value]
      ensures res.Success? ==> Get(rows, res.value.id) == Some(res.value)
    {
      var data := ApplyPayload(Attributes(obj), payload);
      if !Changes(obj, payload) {
        StoredFound(schema, rows, obj);
        return Success(obj);
      }
      res := Commit(obj, data, now);
    }

    /** `db.add(db_obj)` and `commit` of a loaded row whose attributes were
        set to `data`: the database writes them unless it refuses them. */
    method Commit(obj: Row, data: Record, now: int) returns (res: Result<Row, DbError>)
      requires Valid() && obj in rows && data.Keys == Attributes(obj).Keys
      modifies this
      ensures Valid() && nextId == old(nextId)
      ensures
        if UpdateError(schema, old(rows), obj.id, data).Some? then
          res == Failure(UpdateError(schema, old(rows), obj.id, data).value) && rows == old(rows)
        else
          && res == Success(Updated(obj, data, now))
          && rows == old(rows)[IndexOf(old(rows), obj.id) := res.value]
      ensures res.Success? ==> Get(rows, res.value.id) == Some(res.value)
    {
      var err := UpdateError(schema, rows, obj.id, data);
      if err.Some? {
        return Failure(err.value);
      }
      var i := IndexOf(rows, obj.id);
      var row := Updated(obj, data, now);
      ReplaceStored(schema, rows, obj, data, now);
      rows := rows[i := row];
      return Success(row);
    }

    /** `remove(id)`: deletes the row with that id and returns it; a missing
        id raises and changes nothing. */
    method Remove(id: int) returns (res: Result<Row, DbError>)
      requires Valid()
      modifies this
      ensures Valid() && nextId == old(nextId)
      ensures Get(old(rows), id).None? ==> res == Failure(NotFound(id)) && rows == old(rows)
      ensures Get(old(rows), id).Some? ==>
        && res == Success(Get(old(rows), id).value)
        && rows == old(rows)[..IndexOf(old(rows), id)] + old(rows)[IndexOf(old(rows), id) + 1..]
      ensures Get(rows, id).None?
      ensures forall r :: r in old(rows) && r.id != id ==> r in rows
      ensures IdsBelow(old(rows), nextId) ==> IdsBelow(rows, nextId)
    {
      var found := Get(rows, id);
      if found.None? {
        return Failure(NotFound(id));
      }
      var i := IndexOf(rows, id);
      RemoveStored(schema, rows, i);
      rows := rows[..i] + rows[i + 1..];
      return Success(found.value);
    }

    /** `bulk_save_objects` followed by `commit`: all of the payloads are
        stored, in order, or none of them. */
    method InsertAll(payloads: seq<Record>, now: int) returns (res: Result<seq<Row>, DbError>)
      requires Valid() && forall p :: p in payloads ==> NoBaseColumns(p)
      modifies this
      ensures Valid()
      ensures res == BatchInsert(schema, old(rows), old(nextId), payloads, now)
      ensures res.Success? ==> rows == old(rows) + res.value && nextId == old(nextId) + |payloads|
      ensures res.Failure? ==> rows == old(rows) && nextId == old(nextId)
      ensures IdsBelow(old(rows), old(nextId)) ==> IdsBelow(rows, nextId)
    {
      res := BatchInsert(schema, rows, nextId, payloads, now);
      if res.Success? {
        BatchInsertValid(schema, rows, nextId, payloads, now);
        forall r | r in rows + res.value && IdsBelow(rows, nextId) ensures r.id < nextId + |payloads| {
          if r !in rows {
            var k :| 0 <= k < |res.value| && res.value[k] == r;
          }
        }
        rows := rows + res.value;
        nextId := nextId + |payloads|;
      }
    }
  }

  /** After a successful create, `get` on the new id returns the new row, and
      the rows stored before are still there. */
  lemma CreateThenGet(schema: TableSchema, rows: seq<Row>, r: Row)
    requires RowsValid(schema, rows + [r])
    ensures Get(rows + [r], r.id) == Some(r)
    ensures forall x :: x in rows ==> Get(rows + [r], x.id) == Get(rows, x.id)
  {
    GetStored(schema, rows + [r], |rows|);
    forall x | x in rows ensures Get(rows + [r], x.id) == Get(rows, x.id) {
      var k :| 0 <= k < |rows| && rows[k] == x;
      assert (rows + [r])[k] == x;
      GetStored(schema, rows + [r], k);
      assert RowsValid(schema, rows) by {
        forall i, j | 0 <= i < j < |rows| ensures rows[i].id != rows[j].id && !Clashes(schema, rows[i].cols, rows[j].cols) {
          assert (rows + [r])[i] == rows[i] && (rows + [r])[j] == rows[j];
        }
      }
      GetStored(schema, rows, k);
    }
  }
}

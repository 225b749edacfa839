/**
 * What a request handler hands back, and the checks the handlers share: the
 * lookup by id that answers 404 when the row is missing, and the company
 * reference every announcement, price bar, report and signal carries.
 */
module Http {
  import opened Wrappers
  import opened Models
  import opened BaseRepository

  /** A handler's outcome: a body, an `HTTPException` with its status and
      detail, or a database error raised by the commit. */
  datatype Response<T> =
    | Ok(body: T)
    | Rejected(status: nat, detail: string)
    | Failed(error: DbError)

  const BadRequestStatus: nat := 400
  const NotFoundStatus: nat := 404

  /** The detail of every 404 for a missing company. */
  const CompanyMissing: string := "Company not found"

  /** The outcome of a commit, as the handler returns it. */
  function Committed<T>(r: Result<T, DbError>): Response<T> {
    match r
    case Success(v) => Ok(v)
    case Failure(e) => Failed(e)
  }

  /** `db.query(T).filter(T.id == id).first()` followed by a 404 on None. */
  function FetchById(rows: seq<Row>, id: int, detail: string): (res: Response<Row>)
    ensures res.Ok? <==> exists x :: x in rows && x.id == id
    ensures res.Ok? ==> res.body in rows && res.body.id == id
    ensures !res.Ok? ==> res == Rejected(NotFoundStatus, detail)
  {
    match Get(rows, id)
    case Some(x) => Ok(x)
    case None => Rejected(NotFoundStatus, detail)
  }

  /** On a table with unique ids, the lookup of a stored row's id is that row. */
  lemma FetchStored(schema: TableSchema, rows: seq<Row>, i: int, detail: string)
    requires RowsValid(schema, rows) && 0 <= i < |rows|
    ensures FetchById(rows, rows[i].id, detail) == Ok(rows[i])
  {
    GetStored(schema, rows, i);
  }

  /** A company id names a stored company. */
  predicate CompanyKnown(companies: seq<Row>, v: Value) {
    v.Int? && Get(companies, v.i).Some?
  }

  /** Every row of a table refers to a stored company. The storage layer does
      not enforce this; the handlers check it before they insert. */
  predicate References(companies: seq<Row>, rows: seq<Row>) {
    forall x :: x in rows ==> CompanyKnown(companies, Field(x, CompanyId))
  }

  /** Appending rows that refer to stored companies keeps every reference. */
  lemma ReferencesAppend(companies: seq<Row>, rows: seq<Row>, added: seq<Row>)
    requires References(companies, rows) && References(companies, added)
    ensures References(companies, rows + added)
  {
    forall x | x in rows + added ensures CompanyKnown(companies, Field(x, CompanyId)) {
      if x in rows {
        assert CompanyKnown(companies, Field(x, CompanyId));
      } else {
        assert x in added;
      }
    }
  }

  /** Storing more companies keeps every reference good. */
  lemma ReferencesKept(companies: seq<Row>, more: seq<Row>, rows: seq<Row>)
    requires References(companies, rows)
    ensures References(companies + more, rows)
  {
    forall x | x in rows ensures CompanyKnown(companies + more, Field(x, CompanyId)) {
      var c := Get(companies, Field(x, CompanyId).i).value;
      assert c in companies + more;
    }
  }

  /** The answer of an endpoint scoped to one company: the body when the
      company is stored, 404 otherwise. */
  function ForCompany<T>(companies: seq<Row>, companyId: int, body: T): (res: Response<T>)
    ensures res.Ok? <==> exists c :: c in companies && c.id == companyId
    ensures res.Ok? ==> res.body == body
    ensures !res.Ok? ==> res == Rejected(NotFoundStatus, CompanyMissing)
  {
    if Get(companies, companyId).Some? then Ok(body) else Rejected(NotFoundStatus, CompanyMissing)
  }

  /** The create endpoints of the tables that refer to a company: 404 unless
      the payload's company is stored; otherwise the insert, whose own
      failure is the commit's error. The company table is only read. */
  method CreateForCompany(companies: Table, target: Table, payload: Record, now: int) returns (res: Response<Row>)
    requires companies.Valid() && target.Valid() && companies != target
    requires NoBaseColumns(payload) && CompanyId in target.schema.columns
    modifies target
    ensures target.Valid()
    ensures !CompanyKnown(companies.rows, PayloadField(payload, CompanyId)) ==>
      && res == Rejected(NotFoundStatus, CompanyMissing)
      && target.rows == old(target.rows) && target.nextId == old(target.nextId)
    ensures (CompanyKnown(companies.rows, PayloadField(payload, CompanyId)) &&
      CreateError(target.schema, old(target.rows), old(target.nextId), payload).Some?) ==>
      && res == Failed(CreateError(target.schema, old(target.rows), old(target.nextId), payload).value)
      && target.rows == old(target.rows) && target.nextId == old(target.nextId) + Consumed(res.error)
    ensures (CompanyKnown(companies.rows, PayloadField(payload, CompanyId)) &&
      CreateError(target.schema, old(target.rows), old(target.nextId), payload).None?) ==>
      && res == Ok(NewRow(old(target.nextId), now, Materialize(target.schema, payload)))
      && target.rows == old(target.rows) + [res.body] && target.nextId == old(target.nextId) + 1
    ensures References(companies.rows, old(target.rows)) ==> References(companies.rows, target.rows)
    ensures IdsBelow(old(target.rows), old(target.nextId)) ==> IdsBelow(target.rows, target.nextId)
  {
    if !CompanyKnown(companies.rows, PayloadField(payload, CompanyId)) {
      return Rejected(NotFoundStatus, CompanyMissing);
    }
    ghost var before := target.rows;
    var stored := target.Create(payload, now);
    res := Committed(stored);
    if stored.Success? && References(companies.rows, before) {
      ReferencesAfterCreate(companies.rows, before, target.schema, payload, stored.value);
    }
  }

  /** A row built from a payload naming a stored company keeps every reference. */
  lemma ReferencesAfterCreate(companies: seq<Row>, rows: seq<Row>, schema: TableSchema, payload: Record, row: Row)
    requires References(companies, rows) && CompanyKnown(companies, PayloadField(payload, CompanyId))
    requires CompanyId in schema.columns && row.cols == Materialize(schema, payload)
    ensures References(companies, rows + [row])
  {
    MaterializeAt(schema, payload, CompanyId);
    assert Field(row, CompanyId) == PayloadField(payload, CompanyId);
    ReferencesAppend(companies, rows, [row]);
  }
}

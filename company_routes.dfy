/**
 * The company endpoints: create (refused when the ticker is taken), list
 * with an optional sector filter, and the lookups by id and by ticker.
 */
module CompanyRoutes {
  import opened Wrappers
  import opened Models
  import opened Query
  import opened BaseRepository
  import opened CompanyRepository
  import opened Http

  const CompanyExists: string := "Company already exists"

  /** A stored company already has the payload's ticker. */
  predicate TickerTaken(rows: seq<Row>, p: Record) {
    exists x :: x in rows && Field(x, Ticker) == PayloadField(p, Ticker)
  }

  /** Why the table refuses a company whose ticker is free: a string too
      long for its column (a data error), no name for the NOT NULL name
      column, or a taken next id (integrity errors). */
  lemma FreeTickerError(rows: seq<Row>, nextId: int, p: Record)
    requires WellTyped(CompanyTable, p) && NoBaseColumns(p) && Given(p, Ticker) && !TickerTaken(rows, p)
    ensures CreateError(CompanyTable, rows, nextId, p) ==
      if !WithinLengths(CompanyTable, p) then Some(DataError)
      else if !Given(p, Name) then Some(IntegrityError)
      else if IdTaken(rows, nextId) then Some(IntegrityError)
      else None
  {
    CompanyDefaultsTyped();
    MaterializeKeys(CompanyTable, p);
    var rec := Materialize(CompanyTable, p);
    if !WithinLengths(CompanyTable, p) {
      var c :| c in p && c in CompanyTable.columns && !FitsLength(p[c], CompanyTable.columns[c].ty);
      MaterializeAt(CompanyTable, p, c);
      assert !WithinLengths(CompanyTable, rec);
    } else if !Given(p, Name) {
      forall c | c in rec ensures HasType(rec[c], CompanyTable.columns[c].ty) && FitsLength(rec[c], CompanyTable.columns[c].ty) {
        MaterializeAt(CompanyTable, p, c);
      }
      MaterializeAt(CompanyTable, p, Name);
      assert !NonNull(CompanyTable, rec);
    } else {
      forall c | c in CompanyTable.columns && !CompanyTable.columns[c].nullable ensures Given(p, c) {
        assert c == Ticker || c == Name;
      }
      CreatePayloadConforms(CompanyTable, p);
      MaterializeAt(CompanyTable, p, Ticker);
      forall r | r in rows ensures !Clashes(CompanyTable, rec, r.cols) {
        SingleIndexClash(CompanyTable, rec, r.cols);
        assert CompanyTable.uniqueKeys[0] == [Ticker];
      }
    }
  }

  /** `create_company`: 400 when a company has the ticker; otherwise the
      insert, whose error is the commit's. A company with a free ticker is
      stored exactly when it has a name, its strings fit their columns and
      the next id is free. */
  method CreateCompany(companies: Table, payload: Record, now: int) returns (res: Response<Row>)
    requires companies.Valid() && companies.schema == CompanyTable
    requires WellTyped(CompanyTable, payload) && NoBaseColumns(payload) && Given(payload, Ticker)
    modifies companies
    ensures companies.Valid()
    ensures TickerTaken(old(companies.rows), payload) ==>
      && res == Rejected(BadRequestStatus, CompanyExists)
      && companies.rows == old(companies.rows) && companies.nextId == old(companies.nextId)
    ensures !TickerTaken(old(companies.rows), payload) ==>
      if CreateError(CompanyTable, old(companies.rows), old(companies.nextId), payload).None? then
        && res == Ok(NewRow(old(companies.nextId), now, Materialize(CompanyTable, payload)))
        && companies.rows == old(companies.rows) + [res.body]
        && companies.nextId == old(companies.nextId) + 1
      else
        && res == Failed(CreateError(CompanyTable, old(companies.rows), old(companies.nextId), payload).value)
        && companies.rows == old(companies.rows)
        && companies.nextId == old(companies.nextId) + Consumed(res.error)
    ensures !TickerTaken(old(companies.rows), payload) ==>
      (res.Ok? <==> Given(payload, Name) && WithinLengths(CompanyTable, payload) && !IdTaken(old(companies.rows), old(companies.nextId)))
    ensures IdsBelow(old(companies.rows), old(companies.nextId)) ==> IdsBelow(companies.rows, companies.nextId)
  {
    var existing := First(companies.rows, Is(Ticker, PayloadField(payload, Ticker)));
    if existing.Some? {
      return Rejected(BadRequestStatus, CompanyExists);
    }
    FreeTickerError(companies.rows, companies.nextId, payload);
    var stored := companies.Create(payload, now);
    res := Committed(stored);
  }

  /** After a company is created, the lookup by its ticker answers with it. */
  lemma CreatedCompanyFound(rows: seq<Row>, created: Row)
    requires RowsValid(CompanyTable, rows + [created])
    ensures Field(created, Ticker).Text?
    ensures GetCompanyByTicker(rows + [created], Field(created, Ticker).s) == Ok(created)
  {
    CreatedFoundByTicker(rows, created);
  }

  /** `list_companies`: the companies of the sector when one is given and not
      empty, all companies otherwise, in storage order, paged. */
  function ListCompanies(rows: seq<Row>, skip: nat, limit: nat, sector: Option<string>): (r: seq<Row>)
    ensures |r| <= limit
    ensures forall x :: x in r ==> x in rows && (GivenText(sector) ==> Field(x, Sector) == Text(sector.value))
  {
    Run(rows, Query(TextIfGiven(Sector, sector), [], skip, Some(limit)))
  }

  /** With a sector, the listing is the repository's `get_by_sector`. */
  lemma ListCompaniesBySector(rows: seq<Row>, skip: nat, limit: nat, sector: string)
    requires sector != ""
    ensures ListCompanies(rows, skip, limit, Some(sector)) == GetBySector(rows, sector, skip, limit)
  {
    assert TextIfGiven(Sector, Some(sector)) == Is(Sector, Text(sector));
  }

  /** Without a sector (or with an empty one), the listing is `get_multi`. */
  lemma ListCompaniesUnfiltered(rows: seq<Row>, skip: nat, limit: nat, sector: Option<string>)
    requires !GivenText(sector)
    ensures ListCompanies(rows, skip, limit, sector) == GetMulti(rows, skip, limit)
  {
    assert TextIfGiven(Sector, sector) == [];
  }

  /** `get_company`: the company with that id, or 404. */
  function GetCompany(rows: seq<Row>, id: int): (res: Response<Row>)
    ensures res.Ok? <==> exists x :: x in rows && x.id == id
    ensures res.Ok? ==> res.body in rows && res.body.id == id
    ensures !res.Ok? ==> res == Rejected(NotFoundStatus, CompanyMissing)
  {
    FetchById(rows, id, CompanyMissing)
  }

  /** `get_company_by_ticker`: the company with that ticker, or 404. */
  function GetCompanyByTicker(rows: seq<Row>, ticker: string): (res: Response<Row>)
    ensures res.Ok? <==> exists x :: x in rows && Field(x, Ticker) == Text(ticker)
    ensures res.Ok? ==> res.body in rows && Field(res.body, Ticker) == Text(ticker)
    ensures !res.Ok? ==> res == Rejected(NotFoundStatus, CompanyMissing)
  {
    match GetByTicker(rows, ticker)
    case Some(c) => Ok(c)
    case None => Rejected(NotFoundStatus, CompanyMissing)
  }
}

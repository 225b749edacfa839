/**
 * The fundamentals endpoints: create for a stored company when its fiscal
 * period is not stored yet, list with the optional filters, the lookup by id,
 * and one company's latest reports. Unlike the repository, the endpoints do
 * not cap the limit.
 */
module FundamentalRoutes {
  import opened Wrappers
  import opened Models
  import opened Query
  import opened BaseRepository
  import opened FundamentalDataRepository
  import opened Http

  const PeriodExists: string := "Fundamental data already exists for this period"
  const FundamentalMissing: string := "Fundamental data not found"

  /** A stored report collides on the unique index with the record built from
      a payload only when it has the payload's company, period type, year and
      quarter; so a validated payload whose period no stored report has is
      refused only for a string too long for its column (a data error) or a
      taken next id (an integrity error). */
  lemma FreePeriodError(rows: seq<Row>, nextId: int, p: Record)
    requires CreatePayload(FundamentalDataTable, p) && !Known(rows, p)
    ensures CreateError(FundamentalDataTable, rows, nextId, p) ==
      if !WithinLengths(FundamentalDataTable, p) then Some(DataError)
      else if IdTaken(rows, nextId) then Some(IntegrityError)
      else None
  {
    FundamentalDataDefaultsTyped();
    MaterializeKeys(FundamentalDataTable, p);
    var rec := Materialize(FundamentalDataTable, p);
    if !WithinLengths(FundamentalDataTable, p) {
      var c :| c in p && c in FundamentalDataTable.columns && !FitsLength(p[c], FundamentalDataTable.columns[c].ty);
      MaterializeAt(FundamentalDataTable, p, c);
      assert !WithinLengths(FundamentalDataTable, rec);
    } else {
      CreatePayloadConforms(FundamentalDataTable, p);
      forall r | r in rows ensures !Clashes(FundamentalDataTable, rec, r.cols) {
        SingleIndexClash(FundamentalDataTable, rec, r.cols);
        ClashMeansSamePeriod(p, r);
        assert !SamePeriod(r, p);
      }
    }
  }

  /** Colliding with the payload's record on the key means having its period. */
  lemma ClashMeansSamePeriod(p: Record, r: Row)
    ensures ClashOn(FundamentalDataTable.uniqueKeys[0], Materialize(FundamentalDataTable, p), r.cols) ==> SamePeriod(r, p)
  {
    var key := [CompanyId, Period, FiscalYear, FiscalQuarter];
    FundamentalKeyDeclared();
    ClashOnNullDefaults(FundamentalDataTable, p, key, r);
    assert key[0] in key && key[1] in key && key[2] in key && key[3] in key;
  }

  /** The one unique index of the fundamentals table is over four declared
      columns, none with a default. */
  lemma FundamentalKeyDeclared()
    ensures FundamentalDataTable.uniqueKeys == [[CompanyId, Period, FiscalYear, FiscalQuarter]]
    ensures forall c :: c in [CompanyId, Period, FiscalYear, FiscalQuarter] ==>
      c in FundamentalDataTable.columns && FundamentalDataTable.columns[c].default == Null && c !in BaseColumns
  {
  }

  /** On key columns without a default, a record built from a payload agrees
      with a row it collides with on what the payload gives, NULL included. */
  lemma ClashOnNullDefaults(schema: TableSchema, p: Record, key: seq<ColumnName>, r: Row)
    requires forall c :: c in key ==> c in schema.columns && schema.columns[c].default == Null && c !in BaseColumns
    ensures ClashOn(key, Materialize(schema, p), r.cols) ==> forall c :: c in key ==> Field(r, c) == PayloadField(p, c)
  {
  }

  /** `create_fundamental_data`: 404 unless the payload's company is stored;
      400 when a stored report has the payload's company, period type, year
      and quarter (a None quarter matching a NULL one); otherwise the insert,
      whose error is the commit's. A report for a new period is stored
      exactly when its strings fit their columns and the next id is free. */
  method CreateFundamentalData(companies: Table, fundamentals: Table, payload: Record, now: int) returns (res: Response<Row>)
    requires companies.Valid() && fundamentals.Valid() && companies != fundamentals
    requires fundamentals.schema == FundamentalDataTable && CreatePayload(FundamentalDataTable, payload)
    modifies fundamentals
    ensures fundamentals.Valid()
    ensures !CompanyKnown(companies.rows, PayloadField(payload, CompanyId)) ==>
      && res == Rejected(NotFoundStatus, CompanyMissing)
      && fundamentals.rows == old(fundamentals.rows) && fundamentals.nextId == old(fundamentals.nextId)
    ensures CompanyKnown(companies.rows, PayloadField(payload, CompanyId)) && Known(old(fundamentals.rows), payload) ==>
      && res == Rejected(BadRequestStatus, PeriodExists)
      && fundamentals.rows == old(fundamentals.rows) && fundamentals.nextId == old(fundamentals.nextId)
    ensures CompanyKnown(companies.rows, PayloadField(payload, CompanyId)) && !Known(old(fundamentals.rows), payload) ==>
      if CreateError(FundamentalDataTable, old(fundamentals.rows), old(fundamentals.nextId), payload).None? then
        && res == Ok(NewRow(old(fundamentals.nextId), now, Materialize(FundamentalDataTable, payload)))
        && fundamentals.rows == old(fundamentals.rows) + [res.body]
        && fundamentals.nextId == old(fundamentals.nextId) + 1
      else
        && res == Failed(CreateError(FundamentalDataTable, old(fundamentals.rows), old(fundamentals.nextId), payload).value)
        && fundamentals.rows == old(fundamentals.rows)
    ensures CompanyKnown(companies.rows, PayloadField(payload, CompanyId)) && !Known(old(fundamentals.rows), payload) ==>
      (res.Ok? <==> WithinLengths(FundamentalDataTable, payload) && !IdTaken(old(fundamentals.rows), old(fundamentals.nextId)))
    ensures References(companies.rows, old(fundamentals.rows)) ==> References(companies.rows, fundamentals.rows)
    ensures IdsBelow(old(fundamentals.rows), old(fundamentals.nextId)) ==> IdsBelow(fundamentals.rows, fundamentals.nextId)
  {
    if !CompanyKnown(companies.rows, PayloadField(payload, CompanyId)) {
      return Rejected(NotFoundStatus, CompanyMissing);
    }
    var existing := Lookup(fundamentals.rows, payload);
    if existing.Some? {
      return Rejected(BadRequestStatus, PeriodExists);
    }
    FreePeriodError(fundamentals.rows, fundamentals.nextId, payload);
    res := CreateForCompany(companies, fundamentals, payload, now);
  }

  /** `list_fundamentals`: the repository's `get_filtered` filters, newest
      period first, paged, with the limit taken as given. */
  function ListFundamentals(rows: seq<Row>, skip: nat, limit: nat, companyId: Option<int>, period: Option<string>, fiscalYear: Option<int>): (r: seq<Row>)
    ensures |r| <= limit
    ensures forall x :: x in r ==> x in rows && Filtered(x, companyId, period, fiscalYear)
    ensures NewestFirst(r)
  {
    var q := Query(FilterWhere(companyId, period, fiscalYear), NewestFirstOrder, skip, Some(limit));
    RunNewestFirst(rows, q.where, skip, q.limit);
    Run(rows, q)
  }

  /** Within the repository's cap the listing is `get_filtered`. */
  lemma ListFundamentalsIsFiltered(rows: seq<Row>, skip: nat, limit: nat, companyId: Option<int>, period: Option<string>, fiscalYear: Option<int>)
    requires limit <= MaxLimit
    ensures ListFundamentals(rows, skip, limit, companyId, period, fiscalYear) == GetFiltered(rows, companyId, period, fiscalYear, skip, limit)
  {
    assert Min(limit, MaxLimit) == limit;
  }

  /** With room for all, every matching report is listed, however many there are. */
  lemma ListFundamentalsComplete(rows: seq<Row>, limit: nat, companyId: Option<int>, period: Option<string>, fiscalYear: Option<int>)
    requires limit >= |rows|
    ensures forall x :: x in rows && Filtered(x, companyId, period, fiscalYear) ==> x in ListFundamentals(rows, 0, limit, companyId, period, fiscalYear)
  {
    RunComplete(rows, Query(FilterWhere(companyId, period, fiscalYear), NewestFirstOrder, 0, Some(limit)));
  }

  /** `get_fundamental`: the report with that id, or 404. */
  function GetFundamental(rows: seq<Row>, id: int): (res: Response<Row>)
    ensures res.Ok? <==> exists x :: x in rows && x.id == id
    ensures res.Ok? ==> res.body in rows && res.body.id == id
    ensures !res.Ok? ==> res == Rejected(NotFoundStatus, FundamentalMissing)
  {
    FetchById(rows, id, FundamentalMissing)
  }

  /** `get_company_fundamentals`: 404 for an unknown company; otherwise its
      reports (of the period type, when one is given), newest period first,
      at most `limit` of them, none skipped. */
  function GetCompanyFundamentals(companies: seq<Row>, rows: seq<Row>, companyId: int, period: Option<string>, limit: nat): (res: Response<seq<Row>>)
    ensures res.Ok? <==> exists c :: c in companies && c.id == companyId
    ensures !res.Ok? ==> res == Rejected(NotFoundStatus, CompanyMissing)
    ensures res.Ok? ==> |res.body| <= limit && NewestFirst(res.body)
    ensures res.Ok? ==> forall x :: x in res.body ==> x in rows && OfCompany(x, companyId, period)
  {
    var q := Query(CompanyWhere(companyId, period), NewestFirstOrder, 0, Some(limit));
    RunNewestFirst(rows, q.where, 0, q.limit);
    ForCompany(companies, companyId, Run(rows, q))
  }

  /** Within the repository's cap the endpoint answers with `get_by_company`. */
  lemma CompanyFundamentalsWithinCap(companies: seq<Row>, rows: seq<Row>, companyId: int, period: Option<string>, limit: nat)
    requires limit <= MaxLimit && exists c :: c in companies && c.id == companyId
    ensures GetCompanyFundamentals(companies, rows, companyId, period, limit) == Ok(GetByCompany(rows, companyId, period, limit))
  {
    assert Min(limit, MaxLimit) == limit;
  }

  /** With room for all, every report of a stored company (of the period
      type, when given) is returned. */
  lemma CompanyFundamentalsComplete(companies: seq<Row>, rows: seq<Row>, companyId: int, period: Option<string>, limit: nat)
    requires limit >= |rows| && exists c :: c in companies && c.id == companyId
    ensures forall x :: x in rows && OfCompany(x, companyId, period) ==>
      x in GetCompanyFundamentals(companies, rows, companyId, period, limit).body
  {
    RunComplete(rows, Query(CompanyWhere(companyId, period), NewestFirstOrder, 0, Some(limit)));
  }
}

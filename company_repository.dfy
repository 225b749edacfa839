/**
 * The company repository: the lookup by ticker and the listings by sector
 * and by industry. The listings have no ORDER BY, so they come in storage
 * order; none of them caps the limit.
 */
module CompanyRepository {
  import opened Wrappers
  import opened Models
  import opened Query

  // ---------------------------------------------------------------------------
  // get_by_ticker

  /** `get_by_ticker`: the first company with exactly that ticker, if any. */
  function GetByTicker(rows: seq<Row>, ticker: string): (r: Option<Row>)
    ensures r.Some? <==> exists x :: x in rows && Field(x, Ticker) == Text(ticker)
    ensures r.Some? ==> r.value in rows && Field(r.value, Ticker) == Text(ticker)
  {
    First(rows, Is(Ticker, Text(ticker)))
  }

  /** Tickers are unique, so looking up a stored company's ticker finds that company. */
  lemma GetByTickerStored(rows: seq<Row>, i: int)
    requires RowsValid(CompanyTable, rows) && 0 <= i < |rows|
    ensures Field(rows[i], Ticker).Text?
    ensures GetByTicker(rows, Field(rows[i], Ticker).s) == Some(rows[i])
  {
    assert rows[i] in rows;
    CompanyRowTyped(rows[i].cols);
    var r := GetByTicker(rows, Field(rows[i], Ticker).s);
    var k :| 0 <= k < |rows| && rows[k] == r.value;
    if k < i {
      CompanyTickerUnique(rows, k, i);
    } else if i < k {
      CompanyTickerUnique(rows, i, k);
    }
  }

  /** A company just stored in a valid table is what the lookup by its ticker finds. */
  lemma CreatedFoundByTicker(rows: seq<Row>, created: Row)
    requires RowsValid(CompanyTable, rows + [created])
    ensures Field(created, Ticker).Text?
    ensures GetByTicker(rows + [created], Field(created, Ticker).s) == Some(created)
  {
    GetByTickerStored(rows + [created], |rows|);
  }

  // ---------------------------------------------------------------------------
  // get_by_sector and get_by_industry

  /** `get_by_sector`: companies of exactly that sector, `skip` passed over and
      at most `limit` kept; a company without a sector never matches. */
  function GetBySector(rows: seq<Row>, sector: string, skip: nat, limit: nat): (r: seq<Row>)
    ensures |r| <= limit
    ensures forall x :: x in r ==> x in rows && Field(x, Sector) == Text(sector)
  {
    Run(rows, Query(Is(Sector, Text(sector)), [], skip, Some(limit)))
  }

  /** Without ORDER BY the listing is a slice of the matching companies in storage order. */
  lemma GetBySectorStorageOrder(rows: seq<Row>, sector: string, skip: nat, limit: nat)
    ensures GetBySector(rows, sector, skip, limit) == Page(Select(rows, Is(Sector, Text(sector))), skip, Some(limit))
  {
    RunUnordered(rows, Is(Sector, Text(sector)), skip, Some(limit));
  }

  /** From the first row and with room for all, every company of the sector is listed. */
  lemma GetBySectorComplete(rows: seq<Row>, sector: string, limit: nat)
    requires limit >= |rows|
    ensures forall x :: x in rows && Field(x, Sector) == Text(sector) ==> x in GetBySector(rows, sector, 0, limit)
  {
    RunComplete(rows, Query(Is(Sector, Text(sector)), [], 0, Some(limit)));
  }

  /** `get_by_industry`: companies of exactly that industry, `skip` passed over
      and at most `limit` kept; a company without an industry never matches. */
  function GetByIndustry(rows: seq<Row>, industry: string, skip: nat, limit: nat): (r: seq<Row>)
    ensures |r| <= limit
    ensures forall x :: x in r ==> x in rows && Field(x, Industry) == Text(industry)
  {
    Run(rows, Query(Is(Industry, Text(industry)), [], skip, Some(limit)))
  }

  /** Without ORDER BY the listing is a slice of the matching companies in storage order. */
  lemma GetByIndustryStorageOrder(rows: seq<Row>, industry: string, skip: nat, limit: nat)
    ensures GetByIndustry(rows, industry, skip, limit) == Page(Select(rows, Is(Industry, Text(industry))), skip, Some(limit))
  {
    RunUnordered(rows, Is(Industry, Text(industry)), skip, Some(limit));
  }

  /** From the first row and with room for all, every company of the industry is listed. */
  lemma GetByIndustryComplete(rows: seq<Row>, industry: string, limit: nat)
    requires limit >= |rows|
    ensures forall x :: x in rows && Field(x, Industry) == Text(industry) ==> x in GetByIndustry(rows, industry, 0, limit)
  {
    RunComplete(rows, Query(Is(Industry, Text(industry)), [], 0, Some(limit)));
  }
}

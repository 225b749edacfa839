/**
 * The announcement repository: listings by company, by primary category, by
 * date range and by any combination of those filters, always newest first,
 * with OFFSET and LIMIT taken as given (no cap).
 */
module AnnouncementRepository {
  import opened Wrappers
  import opened Models
  import opened Query

  /** Every listing is ordered by announcement date, newest first. */
  const NewestFirst: seq<OrderKey> := [OrderKey(Date, Desc)]

  // ---------------------------------------------------------------------------
  // get_by_company

  /** `get_by_company`: the company's announcements, newest first, `skip`
      passed over and at most `limit` kept. */
  function GetByCompany(rows: seq<Row>, companyId: int, skip: nat, limit: nat): (r: seq<Row>)
    ensures |r| <= limit
    ensures forall x :: x in r ==> x in rows && Field(x, CompanyId) == Int(companyId)
    ensures Descending(Date, r)
  {
    var q := Query(Is(CompanyId, Int(companyId)), NewestFirst, skip, Some(limit));
    SortedDescending(Date, Run(rows, q));
    Run(rows, q)
  }

  /** From the first row and with room for all, every announcement of the company is listed. */
  lemma GetByCompanyComplete(rows: seq<Row>, companyId: int, limit: nat)
    requires limit >= |rows|
    ensures forall x :: x in rows && Field(x, CompanyId) == Int(companyId) ==> x in GetByCompany(rows, companyId, 0, limit)
  {
    RunComplete(rows, Query(Is(CompanyId, Int(companyId)), NewestFirst, 0, Some(limit)));
  }

  // ---------------------------------------------------------------------------
  // get_by_category

  /** `get_by_category`: the announcements whose primary category is exactly
      `category` (an announcement without a category never matches), newest first. */
  function GetByCategory(rows: seq<Row>, category: string, skip: nat, limit: nat): (r: seq<Row>)
    ensures |r| <= limit
    ensures forall x :: x in r ==> x in rows && Field(x, PrimaryCategory) == Text(category)
    ensures Descending(Date, r)
  {
    var q := Query(Is(PrimaryCategory, Text(category)), NewestFirst, skip, Some(limit));
    SortedDescending(Date, Run(rows, q));
    Run(rows, q)
  }

  /** From the first row and with room for all, every announcement of the category is listed. */
  lemma GetByCategoryComplete(rows: seq<Row>, category: string, limit: nat)
    requires limit >= |rows|
    ensures forall x :: x in rows && Field(x, PrimaryCategory) == Text(category) ==> x in GetByCategory(rows, category, 0, limit)
  {
    RunComplete(rows, Query(Is(PrimaryCategory, Text(category)), NewestFirst, 0, Some(limit)));
  }

  // ---------------------------------------------------------------------------
  // get_by_date_range

  /** Dated on or after the start and, when an end is given, on or before it. */
  predicate InRange(x: Row, startDate: int, endDate: Option<int>) {
    OnOrAfter(x, Date, Some(startDate)) && OnOrBefore(x, Date, endDate)
  }

  function RangeWhere(startDate: int, endDate: Option<int>): (w: seq<Criterion>)
    ensures forall x {:trigger Matches(w, x)} :: Matches(w, x) <==> InRange(x, startDate, endDate)
  {
    MatchesAppend(Since(Date, Some(startDate)), Until(Date, endDate));
    Since(Date, Some(startDate)) + Until(Date, endDate)
  }

  /** `get_by_date_range`: the announcements of the range, newest first. The
      start bound is always applied, the end bound only when given. */
  function GetByDateRange(rows: seq<Row>, startDate: int, endDate: Option<int>, skip: nat, limit: nat): (r: seq<Row>)
    ensures |r| <= limit
    ensures forall x :: x in r ==> x in rows && InRange(x, startDate, endDate)
    ensures Descending(Date, r)
  {
    var q := Query(RangeWhere(startDate, endDate), NewestFirst, skip, Some(limit));
    SortedDescending(Date, Run(rows, q));
    Run(rows, q)
  }

  /** From the first row and with room for all, every announcement of the range is listed. */
  lemma GetByDateRangeComplete(rows: seq<Row>, startDate: int, endDate: Option<int>, limit: nat)
    requires limit >= |rows|
    ensures forall x :: x in rows && InRange(x, startDate, endDate) ==> x in GetByDateRange(rows, startDate, endDate, 0, limit)
  {
    RunComplete(rows, Query(RangeWhere(startDate, endDate), NewestFirst, 0, Some(limit)));
  }

  // ---------------------------------------------------------------------------
  // get_filtered

  /** The announcements that satisfy every filter given: company and category
      when truthy, the dates whenever given. */
  predicate Filtered(x: Row, companyId: Option<int>, category: Option<string>, startDate: Option<int>, endDate: Option<int>) {
    && (GivenInt(companyId) ==> Field(x, CompanyId) == Int(companyId.value))
    && (GivenText(category) ==> Field(x, PrimaryCategory) == Text(category.value))
    && OnOrAfter(x, Date, startDate) && OnOrBefore(x, Date, endDate)
  }

  function FilterWhere(companyId: Option<int>, category: Option<string>, startDate: Option<int>, endDate: Option<int>): (w: seq<Criterion>)
    ensures forall x {:trigger Matches(w, x)} :: Matches(w, x) <==> Filtered(x, companyId, category, startDate, endDate)
  {
    var a := IntIfGiven(CompanyId, companyId) + TextIfGiven(PrimaryCategory, category);
    var b := a + Since(Date, startDate);
    MatchesAppend(IntIfGiven(CompanyId, companyId), TextIfGiven(PrimaryCategory, category));
    MatchesAppend(a, Since(Date, startDate));
    MatchesAppend(b, Until(Date, endDate));
    b + Until(Date, endDate)
  }

  /** `get_filtered`: the filtered announcements, newest first. */
  function GetFiltered(rows: seq<Row>, companyId: Option<int>, category: Option<string>, startDate: Option<int>, endDate: Option<int>,
                       skip: nat, limit: nat): (r: seq<Row>)
    ensures |r| <= limit
    ensures forall x :: x in r ==> x in rows && Filtered(x, companyId, category, startDate, endDate)
    ensures Descending(Date, r)
  {
    var q := Query(FilterWhere(companyId, category, startDate, endDate), NewestFirst, skip, Some(limit));
    SortedDescending(Date, Run(rows, q));
    Run(rows, q)
  }

  /** From the first row and with room for all, every filtered announcement is listed. */
  lemma GetFilteredComplete(rows: seq<Row>, companyId: Option<int>, category: Option<string>, startDate: Option<int>, endDate: Option<int>, limit: nat)
    requires limit >= |rows|
    ensures forall x :: x in rows && Filtered(x, companyId, category, startDate, endDate) ==>
      x in GetFiltered(rows, companyId, category, startDate, endDate, 0, limit)
  {
    RunComplete(rows, Query(FilterWhere(companyId, category, startDate, endDate), NewestFirst, 0, Some(limit)));
  }

  /** With no filter given (or only falsy ones), the listing is the whole
      table, newest first, then paged. */
  lemma GetFilteredUnfiltered(rows: seq<Row>, companyId: Option<int>, category: Option<string>, skip: nat, limit: nat)
    requires !GivenInt(companyId) && !GivenText(category)
    ensures GetFiltered(rows, companyId, category, None, None, skip, limit) == Page(Sort(NewestFirst, rows), skip, Some(limit))
  {
    assert FilterWhere(companyId, category, None, None) == [];
    RunUnfiltered(rows, NewestFirst, skip, Some(limit));
  }

  /** Adding filters never lists an announcement the looser call does not:
      each filter the looser call applies, the stricter one applies too. */
  lemma GetFilteredNarrows(rows: seq<Row>, limit: nat,
                           companyId: Option<int>, category: Option<string>, startDate: Option<int>, endDate: Option<int>,
                           companyId': Option<int>, category': Option<string>, startDate': Option<int>, endDate': Option<int>)
    requires limit >= |rows|
    requires !GivenInt(companyId) || companyId' == companyId
    requires !GivenText(category) || category' == category
    requires startDate.None? || startDate' == startDate
    requires endDate.None? || endDate' == endDate
    ensures multiset(GetFiltered(rows, companyId', category', startDate', endDate', 0, limit))
         <= multiset(GetFiltered(rows, companyId, category, startDate, endDate, 0, limit))
  {
    var wide := FilterWhere(companyId, category, startDate, endDate);
    var narrow := FilterWhere(companyId', category', startDate', endDate');
    assert forall x :: Matches(narrow, x) ==> Matches(wide, x);
    RunNarrower(rows, wide, narrow, NewestFirst, limit);
  }

  /** `get_by_date_range` and `get_filtered` with only the dates agree when
      the range has an end. */
  lemma DateRangeIsFiltered(rows: seq<Row>, startDate: int, endDate: int, skip: nat, limit: nat)
    ensures GetByDateRange(rows, startDate, Some(endDate), skip, limit) == GetFiltered(rows, None, None, Some(startDate), Some(endDate), skip, limit)
  {
    assert RangeWhere(startDate, Some(endDate)) == FilterWhere(None, None, Some(startDate), Some(endDate));
  }
}

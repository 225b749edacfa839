/**
 * The fundamentals repository: a company's latest reports, the report of one
 * fiscal period, a filtered listing, and the batch insert that skips periods
 * already stored. Listings are capped at 1000 rows.
 */
module FundamentalDataRepository {
  import opened Wrappers
  import opened Models
  import opened Query
  import opened BaseRepository

  /** The most rows a listing returns, whatever limit the caller asks for. */
  const MaxLimit: nat := 1000

  /** Fiscal year descending, then fiscal quarter descending. */
  const NewestFirstOrder: seq<OrderKey> := [OrderKey(FiscalYear, Desc), OrderKey(FiscalQuarter, Desc)]

  /** Newest period first: years never increase along the result, and within
      one year quarters never increase (a NULL quarter counts as newest). */
  predicate NewestFirst(s: seq<Row>) {
    && Descending(FiscalYear, s)
    && forall i, j :: 0 <= i < j < |s| && KeyOf(Field(s[i], FiscalYear)) == KeyOf(Field(s[j], FiscalYear)) ==>
         KeyLe(KeyOf(Field(s[j], FiscalQuarter)), KeyOf(Field(s[i], FiscalQuarter)))
  }

  /** A query ordered newest first yields a newest-first result. */
  lemma RunNewestFirst(rows: seq<Row>, w: seq<Criterion>, offset: nat, limit: Option<nat>)
    ensures NewestFirst(Run(rows, Query(w, NewestFirstOrder, offset, limit)))
  {
    SortedDescendingThen(FiscalYear, FiscalQuarter, Run(rows, Query(w, NewestFirstOrder, offset, limit)));
  }

  // ---------------------------------------------------------------------------
  // get_by_company

  /** A report of the company, of the given period type when one is given. */
  predicate OfCompany(x: Row, companyId: int, period: Option<string>) {
    Field(x, CompanyId) == Int(companyId) && (GivenText(period) ==> Field(x, Period) == Text(period.value))
  }

  function CompanyWhere(companyId: int, period: Option<string>): (w: seq<Criterion>)
    ensures forall x {:trigger Matches(w, x)} :: Matches(w, x) <==> OfCompany(x, companyId, period)
  {
    MatchesAppend(Is(CompanyId, Int(companyId)), TextIfGiven(Period, period));
    Is(CompanyId, Int(companyId)) + TextIfGiven(Period, period)
  }

  /** `get_by_company`: the company's reports, newest period first, at most
      `limit` of them and never more than 1000. */
  function GetByCompany(rows: seq<Row>, companyId: int, period: Option<string>, limit: nat): (r: seq<Row>)
    ensures |r| <= limit && |r| <= MaxLimit
    ensures forall x :: x in r ==> x in rows && OfCompany(x, companyId, period)
    ensures NewestFirst(r)
  {
    var q := Query(CompanyWhere(companyId, period), NewestFirstOrder, 0, Some(Min(limit, MaxLimit)));
    RunNewestFirst(rows, q.where, 0, q.limit);
    Run(rows, q)
  }

  /** With room for every report, all of the company's reports are returned. */
  lemma GetByCompanyComplete(rows: seq<Row>, companyId: int, period: Option<string>, limit: nat)
    requires Min(limit, MaxLimit) >= |rows|
    ensures forall x :: x in rows && OfCompany(x, companyId, period) ==> x in GetByCompany(rows, companyId, period, limit)
  {
    RunComplete(rows, Query(CompanyWhere(companyId, period), NewestFirstOrder, 0, Some(Min(limit, MaxLimit))));
  }

  /** Asking for more than 1000 is asking for 1000. */
  lemma GetByCompanyCapped(rows: seq<Row>, companyId: int, period: Option<string>, limit: nat)
    requires limit >= MaxLimit
    ensures GetByCompany(rows, companyId, period, limit) == GetByCompany(rows, companyId, period, MaxLimit)
  {
  }

  // ---------------------------------------------------------------------------
  // get_by_period

  /** The report of that company and fiscal year, and of that quarter and
      period type where they are given. */
  predicate OfPeriod(x: Row, companyId: int, fiscalYear: int, fiscalQuarter: Option<int>, period: Option<string>) {
    && Field(x, CompanyId) == Int(companyId) && Field(x, FiscalYear) == Int(fiscalYear)
    && (fiscalQuarter.Some? ==> Field(x, FiscalQuarter) == Int(fiscalQuarter.value))
    && (GivenText(period) ==> Field(x, Period) == Text(period.value))
  }

  function PeriodWhere(companyId: int, fiscalYear: int, fiscalQuarter: Option<int>, period: Option<string>): (w: seq<Criterion>)
    ensures forall x {:trigger Matches(w, x)} :: Matches(w, x) <==> OfPeriod(x, companyId, fiscalYear, fiscalQuarter, period)
  {
    var a := Is(CompanyId, Int(companyId)) + Is(FiscalYear, Int(fiscalYear));
    MatchesAppend(Is(CompanyId, Int(companyId)), Is(FiscalYear, Int(fiscalYear)));
    MatchesAppend(a, IntIfNotNone(FiscalQuarter, fiscalQuarter));
    MatchesAppend(a + IntIfNotNone(FiscalQuarter, fiscalQuarter), TextIfGiven(Period, period));
    a + IntIfNotNone(FiscalQuarter, fiscalQuarter) + TextIfGiven(Period, period)
  }

  /** `get_by_period`: a matching report, None exactly when there is none. */
  function GetByPeriod(rows: seq<Row>, companyId: int, fiscalYear: int, fiscalQuarter: Option<int>, period: Option<string>): (r: Option<Row>)
    ensures r.Some? <==> exists x :: x in rows && OfPeriod(x, companyId, fiscalYear, fiscalQuarter, period)
    ensures r.Some? ==> r.value in rows && OfPeriod(r.value, companyId, fiscalYear, fiscalQuarter, period)
  {
    First(rows, PeriodWhere(companyId, fiscalYear, fiscalQuarter, period))
  }

  /** With the whole key given, the unique index makes the answer the stored
      report itself, as long as its quarter is not NULL. */
  lemma GetByPeriodStored(rows: seq<Row>, i: int)
    requires RowsValid(FundamentalDataTable, rows) && 0 <= i < |rows|
    requires Field(rows[i], FiscalQuarter) != Null && Field(rows[i], Period) != Text("")
    ensures Field(rows[i], CompanyId).Int? && Field(rows[i], FiscalYear).Int?
    ensures Field(rows[i], FiscalQuarter).Int? && Field(rows[i], Period).Text?
    ensures GetByPeriod(rows, Field(rows[i], CompanyId).i, Field(rows[i], FiscalYear).i,
      Some(Field(rows[i], FiscalQuarter).i), Some(Field(rows[i], Period).s)) == Some(rows[i])
  {
    var x := rows[i];
    assert x in rows;
    FundamentalRowTyped(x.cols);
    var companyId, fiscalYear := Field(x, CompanyId).i, Field(x, FiscalYear).i;
    var quarter, period := Field(x, FiscalQuarter).i, Field(x, Period).s;
    assert OfPeriod(x, companyId, fiscalYear, Some(quarter), Some(period));
    var r := GetByPeriod(rows, companyId, fiscalYear, Some(quarter), Some(period)).value;
    var j :| 0 <= j < |rows| && rows[j] == r;
    KeyDeterminesRow(rows, i, j);
  }

  /** Two reports of a valid table that agree on the whole key, quarter not
      NULL, are the same report. */
  lemma KeyDeterminesRow(rows: seq<Row>, i: int, j: int)
    requires RowsValid(FundamentalDataTable, rows) && 0 <= i < |rows| && 0 <= j < |rows|
    requires Field(rows[i], FiscalQuarter) != Null
    requires Field(rows[i], CompanyId) == Field(rows[j], CompanyId) && Field(rows[i], Period) == Field(rows[j], Period)
    requires Field(rows[i], FiscalYear) == Field(rows[j], FiscalYear) && Field(rows[i], FiscalQuarter) == Field(rows[j], FiscalQuarter)
    ensures i == j
  {
    if j < i {
      FundamentalDataKeyUnique(rows, j, i);
    } else if i < j {
      FundamentalDataKeyUnique(rows, i, j);
    }
  }

  // ---------------------------------------------------------------------------
  // get_filtered

  /** The reports that satisfy every filter given (0, "" and None filter nothing). */
  predicate Filtered(x: Row, companyId: Option<int>, period: Option<string>, fiscalYear: Option<int>) {
    && (GivenInt(companyId) ==> Field(x, CompanyId) == Int(companyId.value))
    && (GivenText(period) ==> Field(x, Period) == Text(period.value))
    && (GivenInt(fiscalYear) ==> Field(x, FiscalYear) == Int(fiscalYear.value))
  }

  function FilterWhere(companyId: Option<int>, period: Option<string>, fiscalYear: Option<int>): (w: seq<Criterion>)
    ensures forall x {:trigger Matches(w, x)} :: Matches(w, x) <==> Filtered(x, companyId, period, fiscalYear)
  {
    MatchesAppend(IntIfGiven(CompanyId, companyId), TextIfGiven(Period, period));
    MatchesAppend(IntIfGiven(CompanyId, companyId) + TextIfGiven(Period, period), IntIfGiven(FiscalYear, fiscalYear));
    IntIfGiven(CompanyId, companyId) + TextIfGiven(Period, period) + IntIfGiven(FiscalYear, fiscalYear)
  }

  /** `get_filtered`: the matching reports, newest period first, `skip` of
      them passed over, at most `limit` and never more than 1000 kept. */
  function GetFiltered(rows: seq<Row>, companyId: Option<int>, period: Option<string>, fiscalYear: Option<int>, skip: nat, limit: nat): (r: seq<Row>)
    ensures |r| <= limit && |r| <= MaxLimit
    ensures forall x :: x in r ==> x in rows && Filtered(x, companyId, period, fiscalYear)
    ensures NewestFirst(r)
  {
    var q := Query(FilterWhere(companyId, period, fiscalYear), NewestFirstOrder, skip, Some(Min(limit, MaxLimit)));
    RunNewestFirst(rows, q.where, skip, q.limit);
    Run(rows, q)
  }

  lemma GetFilteredComplete(rows: seq<Row>, companyId: Option<int>, period: Option<string>, fiscalYear: Option<int>, limit: nat)
    requires Min(limit, MaxLimit) >= |rows|
    ensures forall x :: x in rows && Filtered(x, companyId, period, fiscalYear) ==>
      x in GetFiltered(rows, companyId, period, fiscalYear, 0, limit)
  {
    RunComplete(rows, Query(FilterWhere(companyId, period, fiscalYear), NewestFirstOrder, 0, Some(Min(limit, MaxLimit))));
  }

  /** Adding filters never lists a report the looser call does not: each
      filter the looser call applies, the stricter one applies too. */
  lemma GetFilteredNarrows(rows: seq<Row>, limit: nat,
                           companyId: Option<int>, period: Option<string>, fiscalYear: Option<int>,
                           companyId': Option<int>, period': Option<string>, fiscalYear': Option<int>)
    requires Min(limit, MaxLimit) >= |rows|
    requires !GivenInt(companyId) || companyId' == companyId
    requires !GivenText(period) || period' == period
    requires !GivenInt(fiscalYear) || fiscalYear' == fiscalYear
    ensures multiset(GetFiltered(rows, companyId', period', fiscalYear', 0, limit))
         <= multiset(GetFiltered(rows, companyId, period, fiscalYear, 0, limit))
  {
    var wide := FilterWhere(companyId, period, fiscalYear);
    var narrow := FilterWhere(companyId', period', fiscalYear');
    assert forall x :: Matches(narrow, x) ==> Matches(wide, x);
    RunNarrower(rows, wide, narrow, NewestFirstOrder, Min(limit, MaxLimit));
  }

  /** Without filters, the listing is the whole table newest first, paged. */
  lemma GetFilteredUnfiltered(rows: seq<Row>, skip: nat, limit: nat)
    ensures GetFiltered(rows, None, None, None, skip, limit) == Page(Sort(NewestFirstOrder, rows), skip, Some(Min(limit, MaxLimit)))
  {
    assert FilterWhere(None, None, None) == [];
    RunUnfiltered(rows, NewestFirstOrder, skip, Some(Min(limit, MaxLimit)));
  }

  // ---------------------------------------------------------------------------
  // create_batch

  /** What a create payload carries: the four columns of the period key
      (any may be None), and no base column. */
  predicate ValidPayload(p: Record) {
    CompanyId in p && Period in p && FiscalYear in p && FiscalQuarter in p && NoBaseColumns(p)
  }

  /** A stored report has the payload's company, period type, year and quarter;
      a None quarter matches a NULL one, as the lookup compares with IS NULL. */
  predicate SamePeriod(x: Row, p: Record) {
    && Field(x, CompanyId) == PayloadField(p, CompanyId)
    && Field(x, Period) == PayloadField(p, Period)
    && Field(x, FiscalYear) == PayloadField(p, FiscalYear)
    && Field(x, FiscalQuarter) == PayloadField(p, FiscalQuarter)
  }

  /** The lookup of one payload's period. */
  function PeriodOf(p: Record): (w: seq<Criterion>)
    ensures forall x {:trigger Matches(w, x)} :: Matches(w, x) <==> SamePeriod(x, p)
  {
    var a := Is(CompanyId, PayloadField(p, CompanyId)) + Is(Period, PayloadField(p, Period));
    var b := a + Is(FiscalYear, PayloadField(p, FiscalYear));
    MatchesAppend(Is(CompanyId, PayloadField(p, CompanyId)), Is(Period, PayloadField(p, Period)));
    MatchesAppend(a, Is(FiscalYear, PayloadField(p, FiscalYear)));
    MatchesAppend(b, Is(FiscalQuarter, PayloadField(p, FiscalQuarter)));
    b + Is(FiscalQuarter, PayloadField(p, FiscalQuarter))
  }

  predicate Known(rows: seq<Row>, p: Record) {
    exists x :: x in rows && SamePeriod(x, p)
  }

  /** The per-payload query of `create_batch`. */
  function Lookup(rows: seq<Row>, p: Record): (r: Option<Row>)
    ensures r.None? <==> !Known(rows, p)
  {
    First(rows, PeriodOf(p))
  }

  /** The payloads whose period no stored report has, in input order. */
  function NewEntries(rows: seq<Row>, ps: seq<Record>): (r: seq<Record>)
    ensures |r| <= |ps|
  {
    if ps == [] then []
    else
      var last := ps[|ps| - 1];
      NewEntries(rows, ps[..|ps| - 1]) + (if Known(rows, last) then [] else [last])
  }

  /** A payload is kept exactly when no stored report has its period. */
  lemma {:induction false} NewEntriesMembers(rows: seq<Row>, ps: seq<Record>)
    ensures forall p :: p in NewEntries(rows, ps) <==> p in ps && !Known(rows, p)
  {
    if ps != [] {
      var last := ps[|ps| - 1];
      assert ps == ps[..|ps| - 1] + [last];
      NewEntriesMembers(rows, ps[..|ps| - 1]);
    }
  }

  /** Kept payloads are payloads, so they name no base column either. */
  lemma NewEntriesKeepShape(rows: seq<Row>, ps: seq<Record>)
    requires forall p :: p in ps ==> ValidPayload(p)
    ensures forall p :: p in NewEntries(rows, ps) ==> NoBaseColumns(p)
  {
    NewEntriesMembers(rows, ps);
  }

  lemma NewEntriesStep(rows: seq<Row>, ps: seq<Record>, k: int)
    requires 0 <= k < |ps|
    ensures NewEntries(rows, ps[..k + 1]) == NewEntries(rows, ps[..k]) + (if Known(rows, ps[k]) then [] else [ps[k]])
  {
    assert ps[..k + 1][..k] == ps[..k];
  }

  /** Stored NULL-quarter reports are not protected by the unique index, but
      the lookup still skips a None-quarter payload for such a period. */
  lemma NullQuarterSkipped(rows: seq<Row>, ps: seq<Record>, p: Record, x: Row)
    requires p in ps && x in rows && SamePeriod(x, p) && PayloadField(p, FiscalQuarter) == Null
    ensures p !in NewEntries(rows, ps)
    ensures !Clashes(FundamentalDataTable, Materialize(FundamentalDataTable, p), x.cols)
  {
    NewEntriesMembers(rows, ps);
    var rec := Materialize(FundamentalDataTable, p);
    FundamentalQuarterDeclared();
    MaterializeAt(FundamentalDataTable, p, FiscalQuarter);
    FundamentalNullQuarterNeverClashes(rec, x.cols);
  }

  /** The loop of `create_batch`: looks each payload's period up and keeps
      the payload when nothing is found. */
  method KeepNew(rows: seq<Row>, payloads: seq<Record>) returns (newEntries: seq<Record>)
    ensures newEntries == NewEntries(rows, payloads)
  {
    newEntries := [];
    var k := 0;
    while k < |payloads|
      invariant 0 <= k <= |payloads|
      invariant newEntries == NewEntries(rows, payloads[..k])
    {
      NewEntriesStep(rows, payloads, k);
      var existing := Lookup(rows, payloads[k]);
      if existing.None? {
        newEntries := newEntries + [payloads[k]];
      }
      k := k + 1;
    }
    assert payloads[..k] == payloads;
  }

  /** `create_batch` as written: keeps the payloads whose period is not
      stored yet, inserts them all in one commit or none of them, then
      refreshes each object. The rows are stored, yet a batch with a new
      period never comes back: the refresh raises after the commit. */
  method CreateBatch(t: Table, payloads: seq<Record>, now: int) returns (res: Result<seq<Row>, DbError>)
    requires t.Valid() && t.schema == FundamentalDataTable
    requires forall p :: p in payloads ==> ValidPayload(p)
    modifies t
    ensures t.Valid()
    ensures res == Refreshed(BatchInsert(FundamentalDataTable, old(t.rows), old(t.nextId), NewEntries(old(t.rows), payloads), now))
    ensures NewEntries(old(t.rows), payloads) != [] ==> res.Failure?
    ensures BatchInsert(FundamentalDataTable, old(t.rows), old(t.nextId), NewEntries(old(t.rows), payloads), now).Success? ==>
      t.rows == old(t.rows) + BatchInsert(FundamentalDataTable, old(t.rows), old(t.nextId), NewEntries(old(t.rows), payloads), now).value
    ensures BatchInsert(FundamentalDataTable, old(t.rows), old(t.nextId), NewEntries(old(t.rows), payloads), now).Failure? ==>
      t.rows == old(t.rows) && t.nextId == old(t.nextId)
    ensures IdsBelow(old(t.rows), old(t.nextId)) ==> IdsBelow(t.rows, t.nextId)
  {
    if payloads == [] {
      return Success([]);
    }
    var newEntries := KeepNew(t.rows, payloads);
    if newEntries == [] {
      return Success([]);
    }
    NewEntriesKeepShape(t.rows, payloads);
    var stored := t.InsertAll(newEntries, now);
    res := Refreshed(stored);
  }

  /** `create_batch` as evidently intended: the same inserts, with the
      stored rows handed back, one per new period, in input order. */
  method CreateBatchReturningRows(t: Table, payloads: seq<Record>, now: int) returns (res: Result<seq<Row>, DbError>)
    requires t.Valid() && t.schema == FundamentalDataTable
    requires forall p :: p in payloads ==> ValidPayload(p)
    modifies t
    ensures t.Valid()
    ensures res == BatchInsert(FundamentalDataTable, old(t.rows), old(t.nextId), NewEntries(old(t.rows), payloads), now)
    ensures res.Success? ==> t.rows == old(t.rows) + res.value
    ensures res.Success? ==> forall x :: x in res.value ==> exists p :: p in payloads && !Known(old(t.rows), p) && x.cols == Materialize(FundamentalDataTable, p)
    ensures res.Failure? ==> t.rows == old(t.rows) && t.nextId == old(t.nextId)
    ensures IdsBelow(old(t.rows), old(t.nextId)) ==> IdsBelow(t.rows, t.nextId)
  {
    NewEntriesMembers(t.rows, payloads);
    if payloads == [] {
      return Success([]);
    }
    var newEntries := KeepNew(t.rows, payloads);
    if newEntries == [] {
      return Success([]);
    }
    NewEntriesKeepShape(t.rows, payloads);
    res := t.InsertAll(newEntries, now);
    if res.Success? {
      forall x | x in res.value ensures exists p :: p in payloads && !Known(old(t.rows), p) && x.cols == Materialize(FundamentalDataTable, p) {
        var k :| 0 <= k < |res.value| && res.value[k] == x;
        assert newEntries[k] in newEntries;
      }
    }
  }

  /** A validated report into an empty table is committed by the as-written
      `create_batch`, which nonetheless fails with InvalidRequestError. */
  lemma CreateBatchRaisesAfterCommit(p: Record, nextId: int, now: int)
    requires CreatePayload(FundamentalDataTable, p) && WithinLengths(FundamentalDataTable, p)
    ensures NewEntries([], [p]) == [p]
    ensures BatchInsert(FundamentalDataTable, [], nextId, [p], now).Success?
    ensures Refreshed(BatchInsert(FundamentalDataTable, [], nextId, [p], now)) == Failure(InvalidRequest)
  {
    FundamentalDataDefaultsTyped();
    CreatePayloadConforms(FundamentalDataTable, p);
    assert !IdTaken([], nextId);
    assert [p][1..] == [];
    assert [p][..0] == [];
  }
}

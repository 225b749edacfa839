/**
 * The signal endpoints: create for a stored company, list with the optional
 * filters, the lookup by id, the most confident recent signals, and one
 * company's recent signals. Unlike the repository, the endpoints cap
 * neither the limit nor the look-back; `today` stands for the clock.
 */
module SignalRoutes {
  import opened Wrappers
  import opened Models
  import opened Query
  import opened BaseRepository
  import opened SignalRepository
  import opened Http

  const SignalMissing: string := "Signal not found"

  /** `create_signal`: 404 unless the payload's company is stored;
      otherwise the insert, whose error is the commit's. The table has no
      unique index, so repeated signals are accepted: a validated signal is
      stored exactly when its type fits its column and the next id is free. */
  method CreateSignal(companies: Table, signals: Table, payload: Record, now: int) returns (res: Response<Row>)
    requires companies.Valid() && signals.Valid() && companies != signals
    requires signals.schema == SignalTable && CreatePayload(SignalTable, payload)
    modifies signals
    ensures signals.Valid()
    ensures !CompanyKnown(companies.rows, PayloadField(payload, CompanyId)) ==>
      && res == Rejected(NotFoundStatus, CompanyMissing)
      && signals.rows == old(signals.rows) && signals.nextId == old(signals.nextId)
    ensures CompanyKnown(companies.rows, PayloadField(payload, CompanyId)) ==>
      if CreateError(SignalTable, old(signals.rows), old(signals.nextId), payload).None? then
        && res == Ok(NewRow(old(signals.nextId), now, Materialize(SignalTable, payload)))
        && signals.rows == old(signals.rows) + [res.body]
      else
        && res == Failed(CreateError(SignalTable, old(signals.rows), old(signals.nextId), payload).value)
        && signals.rows == old(signals.rows)
    ensures CompanyKnown(companies.rows, PayloadField(payload, CompanyId)) ==>
      (res.Ok? <==> WithinLengths(SignalTable, payload) && !IdTaken(old(signals.rows), old(signals.nextId)))
    ensures References(companies.rows, old(signals.rows)) ==> References(companies.rows, signals.rows)
  {
    SignalDefaultsTyped();
    UnindexedCreateError(SignalTable, signals.rows, signals.nextId, payload);
    res := CreateForCompany(companies, signals, payload, now);
  }

  /** `list_signals`: the repository's `get_filtered` filters, newest first,
      paged, with the limit taken as given. */
  function ListSignals(rows: seq<Row>, skip: nat, limit: nat, companyId: Option<int>, signalType: Option<string>, direction: Option<int>,
                       startDate: Option<int>, endDate: Option<int>, minConfidence: real): (r: seq<Row>)
    ensures |r| <= limit
    ensures forall x :: x in r ==> x in rows && Filtered(x, companyId, signalType, direction, startDate, endDate, minConfidence)
    ensures Descending(Date, r)
  {
    var q := Query(FilterWhere(companyId, signalType, direction, startDate, endDate, minConfidence), [OrderKey(Date, Desc)], skip, Some(limit));
    SortedDescending(Date, Run(rows, q));
    Run(rows, q)
  }

  /** Within the repository's cap the listing is `get_filtered`. */
  lemma ListSignalsIsFiltered(rows: seq<Row>, skip: nat, limit: nat, companyId: Option<int>, signalType: Option<string>, direction: Option<int>,
                              startDate: Option<int>, endDate: Option<int>, minConfidence: real)
    requires limit <= MaxLimit
    ensures ListSignals(rows, skip, limit, companyId, signalType, direction, startDate, endDate, minConfidence)
         == GetFiltered(rows, companyId, signalType, direction, startDate, endDate, minConfidence, skip, limit)
  {
    assert Min(limit, MaxLimit) == limit;
  }

  /** With room for all, every matching signal is listed, however many there are. */
  lemma ListSignalsComplete(rows: seq<Row>, limit: nat, companyId: Option<int>, signalType: Option<string>, direction: Option<int>,
                            startDate: Option<int>, endDate: Option<int>, minConfidence: real)
    requires limit >= |rows|
    ensures forall x :: x in rows && Filtered(x, companyId, signalType, direction, startDate, endDate, minConfidence) ==>
      x in ListSignals(rows, 0, limit, companyId, signalType, direction, startDate, endDate, minConfidence)
  {
    var w := FilterWhere(companyId, signalType, direction, startDate, endDate, minConfidence);
    RunComplete(rows, Query(w, [OrderKey(Date, Desc)], 0, Some(limit)));
  }

  /** `get_signal`: the signal with that id, or 404. */
  function GetSignal(rows: seq<Row>, id: int): (res: Response<Row>)
    ensures res.Ok? <==> exists x :: x in rows && x.id == id
    ensures res.Ok? ==> res.body in rows && res.body.id == id
    ensures !res.Ok? ==> res == Rejected(NotFoundStatus, SignalMissing)
  {
    FetchById(rows, id, SignalMissing)
  }

  /** `get_latest_signals`: signals dated on or after `today - days` whose
      confidence reaches the minimum, most confident first, at most `limit`. */
  function GetLatestSignals(rows: seq<Row>, today: int, days: int, minConfidence: real, limit: nat): (r: seq<Row>)
    ensures |r| <= limit
    ensures forall x :: x in r ==> x in rows && Confident(x, today - days, minConfidence)
    ensures Descending(Confidence, r)
  {
    var q := LatestQuery(today - days, minConfidence, limit);
    SortedDescending(Confidence, Run(rows, q));
    Run(rows, q)
  }

  /** Within the repository's caps (30 days, 500 rows) the endpoint is `get_latest`. */
  lemma LatestSignalsWithinCaps(rows: seq<Row>, today: int, days: int, minConfidence: real, limit: nat)
    requires days <= MaxLatestDays && limit <= MaxLimit
    ensures GetLatestSignals(rows, today, days, minConfidence, limit) == GetLatest(rows, today, days, minConfidence, limit)
  {
    var c := Cutoff(today, days, MaxLatestDays);
    var n := Min(limit, MaxLimit);
    assert c == today - days && n == limit;
    assert LatestQuery(c, minConfidence, n) == LatestQuery(today - days, minConfidence, limit);
    assert GetLatest(rows, today, days, minConfidence, limit) == Run(rows, LatestQuery(c, minConfidence, n));
  }

  /** With room for all, every confident signal of the look-back is returned. */
  lemma LatestSignalsComplete(rows: seq<Row>, today: int, days: int, minConfidence: real, limit: nat)
    requires limit >= |rows|
    ensures forall x :: x in rows && Confident(x, today - days, minConfidence) ==>
      x in GetLatestSignals(rows, today, days, minConfidence, limit)
  {
    RunComplete(rows, LatestQuery(today - days, minConfidence, limit));
  }

  /** `get_company_signals`: 404 unless the company is stored; otherwise
      exactly its signals dated on or after `today - days` (of the type, when
      one is given), newest first, all of them. */
  function GetCompanySignals(companies: seq<Row>, rows: seq<Row>, today: int, companyId: int, days: int,
                             signalType: Option<string>): (res: Response<seq<Row>>)
    ensures res.Ok? <==> exists c :: c in companies && c.id == companyId
    ensures !res.Ok? ==> res == Rejected(NotFoundStatus, CompanyMissing)
    ensures res.Ok? ==> forall x :: x in res.body <==> x in rows && RecentOfCompany(x, companyId, today - days, signalType)
    ensures res.Ok? ==> Descending(Date, res.body)
  {
    var q := Query(CompanyWhere(companyId, today - days, signalType), [OrderKey(Date, Desc)], 0, None);
    RunComplete(rows, q);
    SortedDescending(Date, Run(rows, q));
    ForCompany(companies, companyId, Run(rows, q))
  }

  /** Within the repository's cap of 365 days, the company's signals are its `get_by_company`. */
  lemma CompanySignalsWithinCap(companies: seq<Row>, rows: seq<Row>, today: int, companyId: int, days: int, signalType: Option<string>)
    requires days <= MaxCompanyDays && exists c :: c in companies && c.id == companyId
    ensures GetCompanySignals(companies, rows, today, companyId, days, signalType)
         == Ok(GetByCompany(rows, today, companyId, days, signalType))
  {
    var c := Cutoff(today, days, MaxCompanyDays);
    assert c == today - days;
    assert CompanyWhere(companyId, c, signalType) == CompanyWhere(companyId, today - days, signalType);
    assert GetByCompany(rows, today, companyId, days, signalType) == Run(rows, Query(CompanyWhere(companyId, c, signalType), [OrderKey(Date, Desc)], 0, None));
  }
}

/**
 * The signal repository: a company's recent signals, the latest confident
 * signals, a filtered listing, and a batch insert without any duplicate
 * check. Look-back windows are capped at 365 and 30 days, listings at 500 rows.
 */
module SignalRepository {
  import opened Wrappers
  import opened Models
  import opened Query
  import opened BaseRepository

  /** The most rows a listing returns, whatever limit the caller asks for. */
  const MaxLimit: nat := 500
  /** The longest look-back of `get_by_company`, in days. */
  const MaxCompanyDays: int := 365
  /** The longest look-back of `get_latest`, in days. */
  const MaxLatestDays: int := 30

  /** The first day of a look-back of `days` days, `days` capped at `cap`. */
  function Cutoff(today: int, days: int, cap: int): (d: int)
    requires cap >= 0
    ensures d >= today - cap
    ensures days <= cap ==> d == today - days
  {
    today - Min(days, cap)
  }

  // ---------------------------------------------------------------------------
  // get_by_company

  /** A signal of the company dated on or after the cutoff, of the given type
      when a type is given. */
  predicate RecentOfCompany(x: Row, companyId: int, cutoff: int, signalType: Option<string>) {
    && Field(x, CompanyId) == Int(companyId) && OnOrAfter(x, Date, Some(cutoff))
    && (GivenText(signalType) ==> Field(x, SignalType) == Text(signalType.value))
  }

  function CompanyWhere(companyId: int, cutoff: int, signalType: Option<string>): (w: seq<Criterion>)
    ensures forall x {:trigger Matches(w, x)} :: Matches(w, x) <==> RecentOfCompany(x, companyId, cutoff, signalType)
  {
    MatchesAppend(Is(CompanyId, Int(companyId)), Since(Date, Some(cutoff)));
    MatchesAppend(Is(CompanyId, Int(companyId)) + Since(Date, Some(cutoff)), TextIfGiven(SignalType, signalType));
    Is(CompanyId, Int(companyId)) + Since(Date, Some(cutoff)) + TextIfGiven(SignalType, signalType)
  }

  /** `get_by_company`: exactly the company's signals of the last `days`
      days (at most 365), newest first, without a limit. */
  function GetByCompany(rows: seq<Row>, today: int, companyId: int, days: int, signalType: Option<string>): (r: seq<Row>)
    ensures forall x :: x in r <==> x in rows && RecentOfCompany(x, companyId, Cutoff(today, days, MaxCompanyDays), signalType)
    ensures forall x :: x in r ==> Field(x, Date).Time? && Field(x, Date).t >= today - MaxCompanyDays
    ensures Descending(Date, r)
  {
    var q := Query(CompanyWhere(companyId, Cutoff(today, days, MaxCompanyDays), signalType), [OrderKey(Date, Desc)], 0, None);
    RunComplete(rows, q);
    SortedDescending(Date, Run(rows, q));
    Run(rows, q)
  }

  // ---------------------------------------------------------------------------
  // get_latest

  /** A signal dated on or after the cutoff whose confidence reaches the minimum. */
  predicate Confident(x: Row, cutoff: int, minConfidence: real) {
    OnOrAfter(x, Date, Some(cutoff)) && Field(x, Confidence).Real? && minConfidence <= Field(x, Confidence).x
  }

  function LatestWhere(cutoff: int, minConfidence: real): (w: seq<Criterion>)
    ensures forall x {:trigger Matches(w, x)} :: Matches(w, x) <==> Confident(x, cutoff, minConfidence)
  {
    MatchesAppend(Since(Date, Some(cutoff)), AtLeastValue(Confidence, Real(minConfidence)));
    Since(Date, Some(cutoff)) + AtLeastValue(Confidence, Real(minConfidence))
  }

  /** Confident signals since the cutoff, most confident first, at most `limit`. */
  function LatestQuery(cutoff: int, minConfidence: real, limit: nat): Query {
    Query(LatestWhere(cutoff, minConfidence), [OrderKey(Confidence, Desc)], 0, Some(limit))
  }

  /** `get_latest`: confident signals of the last `days` days (at most 30),
      most confident first, at most `limit` and never more than 500. */
  function GetLatest(rows: seq<Row>, today: int, days: int, minConfidence: real, limit: nat): (r: seq<Row>)
    ensures |r| <= limit && |r| <= MaxLimit
    ensures forall x :: x in r ==> x in rows && Confident(x, Cutoff(today, days, MaxLatestDays), minConfidence)
    ensures forall x :: x in r ==> Field(x, Date).Time? && Field(x, Date).t >= today - MaxLatestDays
    ensures Descending(Confidence, r)
  {
    var q := LatestQuery(Cutoff(today, days, MaxLatestDays), minConfidence, Min(limit, MaxLimit));
    SortedDescending(Confidence, Run(rows, q));
    Run(rows, q)
  }

  /** With room for all of them, every confident recent signal is returned. */
  lemma GetLatestComplete(rows: seq<Row>, today: int, days: int, minConfidence: real, limit: nat)
    requires Min(limit, MaxLimit) >= |rows|
    ensures forall x :: x in rows && Confident(x, Cutoff(today, days, MaxLatestDays), minConfidence) ==>
      x in GetLatest(rows, today, days, minConfidence, limit)
  {
    RunComplete(rows, LatestQuery(Cutoff(today, days, MaxLatestDays), minConfidence, Min(limit, MaxLimit)));
  }

  // ---------------------------------------------------------------------------
  // get_filtered

  /** The signals that satisfy every filter given: company and type when
      truthy, direction whenever given (0 included), the dates when given,
      and the confidence only when the minimum is positive. */
  predicate Filtered(x: Row, companyId: Option<int>, signalType: Option<string>, direction: Option<int>,
                     startDate: Option<int>, endDate: Option<int>, minConfidence: real) {
    && (GivenInt(companyId) ==> Field(x, CompanyId) == Int(companyId.value))
    && (GivenText(signalType) ==> Field(x, SignalType) == Text(signalType.value))
    && (direction.Some? ==> Field(x, Direction) == Int(direction.value))
    && OnOrAfter(x, Date, startDate) && OnOrBefore(x, Date, endDate)
    && (minConfidence > 0.0 ==> Field(x, Confidence).Real? && minConfidence <= Field(x, Confidence).x)
  }

  function FilterWhere(companyId: Option<int>, signalType: Option<string>, direction: Option<int>,
                       startDate: Option<int>, endDate: Option<int>, minConfidence: real): (w: seq<Criterion>)
    ensures forall x {:trigger Matches(w, x)} :: Matches(w, x) <==>
      Filtered(x, companyId, signalType, direction, startDate, endDate, minConfidence)
  {
    var a := IntIfGiven(CompanyId, companyId) + TextIfGiven(SignalType, signalType);
    var b := a + IntIfNotNone(Direction, direction);
    var c := b + Since(Date, startDate);
    var d := c + Until(Date, endDate);
    MatchesAppend(IntIfGiven(CompanyId, companyId), TextIfGiven(SignalType, signalType));
    MatchesAppend(a, IntIfNotNone(Direction, direction));
    MatchesAppend(b, Since(Date, startDate));
    MatchesAppend(c, Until(Date, endDate));
    MatchesAppend(d, RealAtLeastIf(minConfidence > 0.0, Confidence, minConfidence));
    d + RealAtLeastIf(minConfidence > 0.0, Confidence, minConfidence)
  }

  /** `get_filtered`: the filtered signals, newest first, `skip` of them
      passed over and at most `limit` kept, never more than 500. */
  function GetFiltered(rows: seq<Row>, companyId: Option<int>, signalType: Option<string>, direction: Option<int>,
                       startDate: Option<int>, endDate: Option<int>, minConfidence: real, skip: nat, limit: nat): (r: seq<Row>)
    ensures |r| <= limit && |r| <= MaxLimit
    ensures forall x :: x in r ==> x in rows && Filtered(x, companyId, signalType, direction, startDate, endDate, minConfidence)
    ensures Descending(Date, r)
  {
    var q := Query(FilterWhere(companyId, signalType, direction, startDate, endDate, minConfidence), [OrderKey(Date, Desc)], skip, Some(Min(limit, MaxLimit)));
    SortedDescending(Date, Run(rows, q));
    Run(rows, q)
  }

  /** From the first row and with room for all, every filtered signal is returned. */
  lemma GetFilteredComplete(rows: seq<Row>, companyId: Option<int>, signalType: Option<string>, direction: Option<int>,
                            startDate: Option<int>, endDate: Option<int>, minConfidence: real, limit: nat)
    requires Min(limit, MaxLimit) >= |rows|
    ensures forall x :: x in rows && Filtered(x, companyId, signalType, direction, startDate, endDate, minConfidence) ==>
      x in GetFiltered(rows, companyId, signalType, direction, startDate, endDate, minConfidence, 0, limit)
  {
    var w := FilterWhere(companyId, signalType, direction, startDate, endDate, minConfidence);
    RunComplete(rows, Query(w, [OrderKey(Date, Desc)], 0, Some(Min(limit, MaxLimit))));
  }

  /** A minimum confidence of zero or below filters nothing: the listing is
      the one without the minimum. */
  lemma NonPositiveConfidenceIgnored(rows: seq<Row>, companyId: Option<int>, signalType: Option<string>, direction: Option<int>,
                                     startDate: Option<int>, endDate: Option<int>, minConfidence: real, skip: nat, limit: nat)
    requires minConfidence <= 0.0
    ensures GetFiltered(rows, companyId, signalType, direction, startDate, endDate, minConfidence, skip, limit)
         == GetFiltered(rows, companyId, signalType, direction, startDate, endDate, 0.0, skip, limit)
  {
    assert RealAtLeastIf(minConfidence > 0.0, Confidence, minConfidence) == RealAtLeastIf(0.0 > 0.0, Confidence, 0.0);
  }

  // ---------------------------------------------------------------------------
  // create_batch

  /** What a create payload carries: only signal columns, each of its type,
      every NOT NULL column given, and no base column. */
  predicate ValidPayload(p: Record) {
    && WellTyped(SignalTable, p) && NoBaseColumns(p)
    && Given(p, CompanyId) && Given(p, Date) && Given(p, SignalType)
    && Given(p, Direction) && Given(p, Strength) && Given(p, Confidence)
  }

  /** The record built from a validated payload whose signal type fits its
      column fits the table. */
  lemma PayloadConforms(p: Record)
    requires ValidPayload(p) && WithinLengths(SignalTable, p)
    ensures p.Keys <= SignalTable.columns.Keys
    ensures Conforms(SignalTable, Materialize(SignalTable, p))
  {
    var rec := Materialize(SignalTable, p);
    MaterializeKeys(SignalTable, p);
    forall c | c in rec ensures HasType(rec[c], SignalTable.columns[c].ty) && FitsLength(rec[c], SignalTable.columns[c].ty) {
      SignalDeclared(c);
    }
    forall c | c in SignalTable.columns && !SignalTable.columns[c].nullable ensures c in rec && rec[c] != Null {
      SignalDeclared(c);
    }
  }

  /** Without a unique index on signals, any batch of validated payloads
      whose strings fit is stored whole, one row per payload, duplicates
      included, while the id sequence is past every stored id. */
  lemma BatchAccepted(rows: seq<Row>, nextId: int, ps: seq<Record>, now: int)
    requires IdsBelow(rows, nextId)
    requires forall p :: p in ps ==> ValidPayload(p) && WithinLengths(SignalTable, p)
    ensures BatchInsert(SignalTable, rows, nextId, ps, now).Success?
    ensures |BatchInsert(SignalTable, rows, nextId, ps, now).value| == |ps|
  {
    forall p | p in ps ensures p.Keys <= SignalTable.columns.Keys && Conforms(SignalTable, Materialize(SignalTable, p)) {
      PayloadConforms(p);
    }
    UnindexedBatchAccepted(SignalTable, rows, nextId, ps, now);
  }

  /** The loop of `create_batch`: one new entry per payload, in input order. */
  method BuildEntries(payloads: seq<Record>) returns (newEntries: seq<Record>)
    ensures newEntries == payloads
  {
    newEntries := [];
    var k := 0;
    while k < |payloads|
      invariant 0 <= k <= |payloads|
      invariant newEntries == payloads[..k]
    {
      newEntries := newEntries + [payloads[k]];
      assert payloads[..k + 1] == payloads[..k] + [payloads[k]];
      k := k + 1;
    }
    assert payloads[..k] == payloads;
  }

  /** `create_batch` as written: the bulk insert of every payload, in input
      order, in one commit, followed by the refresh of each object. The rows
      are stored, yet a non-empty batch never comes back: the refresh raises
      after the commit. */
  method CreateBatch(t: Table, payloads: seq<Record>, now: int) returns (res: Result<seq<Row>, DbError>)
    requires t.Valid() && t.schema == SignalTable
    requires forall p :: p in payloads ==> ValidPayload(p)
    modifies t
    ensures t.Valid()
    ensures res == Refreshed(BatchInsert(SignalTable, old(t.rows), old(t.nextId), payloads, now))
    ensures payloads != [] ==> res.Failure?
    ensures BatchInsert(SignalTable, old(t.rows), old(t.nextId), payloads, now).Success? ==>
      t.rows == old(t.rows) + BatchInsert(SignalTable, old(t.rows), old(t.nextId), payloads, now).value
    ensures BatchInsert(SignalTable, old(t.rows), old(t.nextId), payloads, now).Failure? ==> t.rows == old(t.rows)
    ensures IdsBelow(old(t.rows), old(t.nextId)) ==> IdsBelow(t.rows, t.nextId)
  {
    if payloads == [] {
      return Success([]);
    }
    var newEntries := BuildEntries(payloads);
    var stored := t.InsertAll(newEntries, now);
    res := Refreshed(stored);
  }

  /** `create_batch` as evidently intended: the stored rows are handed back.
      A batch of validated payloads whose strings fit is always stored whole
      while the id sequence is past every stored id. */
  method CreateBatchReturningRows(t: Table, payloads: seq<Record>, now: int) returns (res: Result<seq<Row>, DbError>)
    requires t.Valid() && t.schema == SignalTable
    requires forall p :: p in payloads ==> ValidPayload(p)
    modifies t
    ensures t.Valid()
    ensures res == BatchInsert(SignalTable, old(t.rows), old(t.nextId), payloads, now)
    ensures res.Success? ==> t.rows == old(t.rows) + res.value && |res.value| == |payloads|
    ensures res.Failure? ==> t.rows == old(t.rows)
    ensures IdsBelow(old(t.rows), old(t.nextId)) && (forall p :: p in payloads ==> WithinLengths(SignalTable, p)) ==> res.Success?
    ensures IdsBelow(old(t.rows), old(t.nextId)) ==> IdsBelow(t.rows, t.nextId)
  {
    if IdsBelow(t.rows, t.nextId) && forall p :: p in payloads ==> WithinLengths(SignalTable, p) {
      BatchAccepted(t.rows, t.nextId, payloads, now);
    }
    if payloads == [] {
      return Success([]);
    }
    var newEntries := BuildEntries(payloads);
    res := t.InsertAll(newEntries, now);
  }

  /** A valid signal stored into a table whose id sequence is past every id
      is committed by the as-written `create_batch`, which nonetheless fails
      with InvalidRequestError. */
  lemma CreateBatchRaisesAfterCommit(rows: seq<Row>, nextId: int, p: Record, now: int)
    requires IdsBelow(rows, nextId) && ValidPayload(p) && WithinLengths(SignalTable, p)
    ensures BatchInsert(SignalTable, rows, nextId, [p], now).Success?
    ensures Refreshed(BatchInsert(SignalTable, rows, nextId, [p], now)) == Failure(InvalidRequest)
  {
    BatchAccepted(rows, nextId, [p], now);
  }
}

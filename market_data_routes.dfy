/**
 * The market-data endpoints: create one price bar for a stored company when
 * its day is not stored yet, create a batch that silently skips what it
 * cannot store, list with the optional filters, and one company's bars in a
 * date window. Dates are day numbers; `today` stands for the clock.
 */
module MarketDataRoutes {
  import opened Wrappers
  import opened Models
  import opened Query
  import opened BaseRepository
  import opened PriceDataRepository
  import opened Http

  const BarExists: string := "Price data already exists for this date"

  /** The lookup of a stored bar with the payload's company and day. */
  function ExistingBar(rows: seq<Row>, p: Record): (r: Option<Row>)
    ensures r.None? <==> !Stored(rows, PayloadKey(p))
    ensures r.Some? ==> r.value in rows && RowKey(r.value) == PayloadKey(p)
  {
    MatchesAppend(Is(CompanyId, PayloadField(p, CompanyId)), Is(Date, PayloadField(p, Date)));
    First(rows, Is(CompanyId, PayloadField(p, CompanyId)) + Is(Date, PayloadField(p, Date)))
  }

  // ---------------------------------------------------------------------------
  // create_price_data

  /** `create_price_data`: 404 unless the payload's company is stored; 400
      when the company already has a bar of that day; otherwise the insert,
      whose error is the commit's: a new bar is stored exactly when the next
      id is free. */
  method CreatePriceData(companies: Table, prices: Table, payload: Record, now: int) returns (res: Response<Row>)
    requires companies.Valid() && prices.Valid() && companies != prices
    requires prices.schema == PriceDataTable && ValidPayload(payload)
    modifies prices
    ensures prices.Valid()
    ensures !CompanyKnown(companies.rows, PayloadField(payload, CompanyId)) ==>
      && res == Rejected(NotFoundStatus, CompanyMissing)
      && prices.rows == old(prices.rows) && prices.nextId == old(prices.nextId)
    ensures CompanyKnown(companies.rows, PayloadField(payload, CompanyId)) && Stored(old(prices.rows), PayloadKey(payload)) ==>
      && res == Rejected(BadRequestStatus, BarExists)
      && prices.rows == old(prices.rows) && prices.nextId == old(prices.nextId)
    ensures CompanyKnown(companies.rows, PayloadField(payload, CompanyId)) && !Stored(old(prices.rows), PayloadKey(payload)) ==>
      if CreateError(PriceDataTable, old(prices.rows), old(prices.nextId), payload).None? then
        && res == Ok(NewRow(old(prices.nextId), now, Materialize(PriceDataTable, payload)))
        && prices.rows == old(prices.rows) + [res.body]
        && prices.nextId == old(prices.nextId) + 1
      else
        && res == Failed(CreateError(PriceDataTable, old(prices.rows), old(prices.nextId), payload).value)
        && prices.rows == old(prices.rows)
    ensures CompanyKnown(companies.rows, PayloadField(payload, CompanyId)) && !Stored(old(prices.rows), PayloadKey(payload)) ==>
      (res.Ok? <==> !IdTaken(old(prices.rows), old(prices.nextId)))
    ensures References(companies.rows, old(prices.rows)) ==> References(companies.rows, prices.rows)
    ensures IdsBelow(old(prices.rows), old(prices.nextId)) ==> IdsBelow(prices.rows, prices.nextId)
  {
    if !CompanyKnown(companies.rows, PayloadField(payload, CompanyId)) {
      return Rejected(NotFoundStatus, CompanyMissing);
    }
    var existing := ExistingBar(prices.rows, payload);
    if existing.Some? {
      return Rejected(BadRequestStatus, BarExists);
    }
    PayloadAccepted(prices.rows, payload);
    res := CreateForCompany(companies, prices, payload, now);
  }

  // ---------------------------------------------------------------------------
  // create_price_data_batch

  /** The payloads naming a stored company, in input order. */
  function KnownOnly(companies: seq<Row>, ps: seq<Record>): (r: seq<Record>)
    ensures |r| <= |ps|
  {
    if ps == [] then []
    else
      var last := ps[|ps| - 1];
      KnownOnly(companies, ps[..|ps| - 1]) + (if CompanyKnown(companies, PayloadField(last, CompanyId)) then [last] else [])
  }

  /** A payload is kept exactly when its company is stored. */
  lemma {:induction false} KnownOnlyMembers(companies: seq<Row>, ps: seq<Record>)
    ensures forall p :: p in KnownOnly(companies, ps) <==> p in ps && CompanyKnown(companies, PayloadField(p, CompanyId))
  {
    if ps != [] {
      var last := ps[|ps| - 1];
      assert ps == ps[..|ps| - 1] + [last];
      KnownOnlyMembers(companies, ps[..|ps| - 1]);
    }
  }

  lemma KnownOnlyStep(companies: seq<Row>, ps: seq<Record>, k: int)
    requires 0 <= k < |ps|
    ensures KnownOnly(companies, ps[..k + 1]) ==
      KnownOnly(companies, ps[..k]) + (if CompanyKnown(companies, PayloadField(ps[k], CompanyId)) then [ps[k]] else [])
  {
    assert ps[..k + 1][..k] == ps[..k];
  }

  /** What the handler adds to the session: each payload whose company is
      stored and whose bar the table held not before the call, in input order. */
  function Admitted(companies: seq<Row>, rows: seq<Row>, ps: seq<Record>): seq<Record> {
    NewEntries(rows, KnownOnly(companies, ps))
  }

  /** A payload is added exactly when its company is stored and its bar is not. */
  lemma AdmittedMembers(companies: seq<Row>, rows: seq<Row>, ps: seq<Record>)
    ensures forall p :: p in Admitted(companies, rows, ps) <==>
      p in ps && CompanyKnown(companies, PayloadField(p, CompanyId)) && !Stored(rows, PayloadKey(p))
  {
    KnownOnlyMembers(companies, ps);
    NewEntriesMembers(rows, KnownOnly(companies, ps));
  }

  /** One more payload is added exactly when its company is stored and its bar is not. */
  lemma AdmittedStep(companies: seq<Row>, rows: seq<Row>, ps: seq<Record>, k: int)
    requires 0 <= k < |ps|
    ensures Admitted(companies, rows, ps[..k + 1]) == Admitted(companies, rows, ps[..k]) +
      (if CompanyKnown(companies, PayloadField(ps[k], CompanyId)) && !Stored(rows, PayloadKey(ps[k])) then [ps[k]] else [])
  {
    KnownOnlyStep(companies, ps, k);
    var s := KnownOnly(companies, ps[..k]);
    if CompanyKnown(companies, PayloadField(ps[k], CompanyId)) {
      NewEntriesAppend(rows, s, ps[k]);
    } else {
      assert KnownOnly(companies, ps[..k + 1]) == s + [] == s;
    }
  }

  lemma NewEntriesAppend(rows: seq<Row>, s: seq<Record>, p: Record)
    ensures NewEntries(rows, s + [p]) == NewEntries(rows, s) + (if Stored(rows, PayloadKey(p)) then [] else [p])
  {
    var t := s + [p];
    assert t[..|t| - 1] == s && t[|t| - 1] == p;
  }

  /** The loop of `create_price_data_batch`: a payload of an unknown company
      is skipped, then one whose bar the lookup finds; the rest are added,
      in order. Rows added earlier in the loop are not flushed, so the lookup
      sees the table as it was before the call. */
  method KeepAdmitted(companies: seq<Row>, rows: seq<Row>, payloads: seq<Record>) returns (results: seq<Record>)
    ensures results == Admitted(companies, rows, payloads)
  {
    results := [];
    var k := 0;
    while k < |payloads|
      invariant 0 <= k <= |payloads|
      invariant results == Admitted(companies, rows, payloads[..k])
    {
      AdmittedStep(companies, rows, payloads, k);
      var p := payloads[k];
      if CompanyKnown(companies, PayloadField(p, CompanyId)) {
        var existing := ExistingBar(rows, p);
        if existing.None? {
          results := results + [p];
        }
      }
      k := k + 1;
    }
    assert payloads[..k] == payloads;
  }

  /** Rows stored from payloads that all name stored companies keep every reference. */
  lemma BatchReferences(companies: seq<Row>, rows: seq<Row>, added: seq<Row>, kept: seq<Record>)
    requires References(companies, rows)
    requires |added| == |kept|
    requires forall k :: 0 <= k < |kept| ==> added[k].cols == Materialize(PriceDataTable, kept[k])
    requires forall p :: p in kept ==> CompanyKnown(companies, PayloadField(p, CompanyId))
    ensures References(companies, rows + added)
  {
    forall x | x in added ensures CompanyKnown(companies, Field(x, CompanyId)) {
      var k :| 0 <= k < |added| && added[k] == x;
      assert kept[k] in kept;
      StoredReference(companies, x, kept[k]);
    }
    ReferencesAppend(companies, rows, added);
  }

  /** A bar stored from a payload keeps the payload's company. */
  lemma StoredReference(companies: seq<Row>, x: Row, p: Record)
    requires x.cols == Materialize(PriceDataTable, p)
    requires CompanyKnown(companies, PayloadField(p, CompanyId))
    ensures CompanyKnown(companies, Field(x, CompanyId))
  {
    MaterializeAt(PriceDataTable, p, CompanyId);
  }

  /** `create_price_data_batch`: adds the admitted payloads and commits once;
      the answer is the stored bars in input order, or the commit's error
      with nothing stored. */
  method CreatePriceDataBatch(companies: Table, prices: Table, payloads: seq<Record>, now: int) returns (res: Response<seq<Row>>)
    requires companies.Valid() && prices.Valid() && companies != prices
    requires prices.schema == PriceDataTable && forall p :: p in payloads ==> ValidPayload(p)
    modifies prices
    ensures prices.Valid()
    ensures res == Committed(BatchInsert(PriceDataTable, old(prices.rows), old(prices.nextId), Admitted(companies.rows, old(prices.rows), payloads), now))
    ensures res.Ok? ==> prices.rows == old(prices.rows) + res.body
    ensures !res.Ok? ==> prices.rows == old(prices.rows) && prices.nextId == old(prices.nextId)
    ensures References(companies.rows, old(prices.rows)) ==> References(companies.rows, prices.rows)
  {
    var results := KeepAdmitted(companies.rows, prices.rows, payloads);
    AdmittedMembers(companies.rows, prices.rows, payloads);
    ghost var before := prices.rows;
    var stored := prices.InsertAll(results, now);
    res := Committed(stored);
    if stored.Success? && References(companies.rows, before) {
      BatchReferences(companies.rows, before, stored.value, results);
    }
  }

  /** As written, a batch that names the same new bar of a stored company
      twice adds both payloads, and the commit fails on the unique index:
      nothing of the batch is stored. */
  lemma CreatePriceDataBatchRepeatFails(companies: seq<Row>, rows: seq<Row>, nextId: int, p: Record, now: int)
    requires ValidPayload(p) && CompanyKnown(companies, PayloadField(p, CompanyId)) && !Stored(rows, PayloadKey(p))
    ensures Admitted(companies, rows, [p, p]) == [p, p]
    ensures Committed(BatchInsert(PriceDataTable, rows, nextId, Admitted(companies, rows, [p, p]), now)) == Failed(IntegrityError)
  {
    assert [p, p][..1] == [p];
    assert [p][..0] == [];
    assert KnownOnly(companies, [p]) == [p];
    assert KnownOnly(companies, [p, p]) == [p, p];
    CreateBatchRepeatFails(rows, nextId, p, now);
  }

  // ---------------------------------------------------------------------------
  // create_price_data_batch as intended

  /** The payloads the batch handler would add were every added bar also
      remembered: each new bar of a stored company once, at its first mention. */
  function AdmittedOnce(companies: seq<Row>, rows: seq<Row>, ps: seq<Record>): seq<Record> {
    FreshEntries(rows, KnownOnly(companies, ps))
  }

  lemma AdmittedOnceStep(companies: seq<Row>, rows: seq<Row>, ps: seq<Record>, k: int)
    requires 0 <= k < |ps|
    ensures AdmittedOnce(companies, rows, ps[..k + 1]) == AdmittedOnce(companies, rows, ps[..k]) +
      (if CompanyKnown(companies, PayloadField(ps[k], CompanyId)) && !Stored(rows, PayloadKey(ps[k]))
          && PayloadKey(ps[k]) !in KeysOf(KnownOnly(companies, ps[..k]))
       then [ps[k]] else [])
  {
    KnownOnlyStep(companies, ps, k);
    var s := KnownOnly(companies, ps[..k]);
    if CompanyKnown(companies, PayloadField(ps[k], CompanyId)) {
      FreshEntriesAppend(rows, s, ps[k]);
    } else {
      assert KnownOnly(companies, ps[..k + 1]) == s + [] == s;
    }
  }

  lemma FreshEntriesAppend(rows: seq<Row>, s: seq<Record>, p: Record)
    ensures FreshEntries(rows, s + [p]) ==
      FreshEntries(rows, s) + (if Stored(rows, PayloadKey(p)) || PayloadKey(p) in KeysOf(s) then [] else [p])
  {
    var t := s + [p];
    assert t[..|t| - 1] == s && t[|t| - 1] == p;
  }

  /** The keys of the payloads of stored companies grow by the next such payload's key. */
  lemma KnownKeysStep(companies: seq<Row>, ps: seq<Record>, k: int)
    requires 0 <= k < |ps|
    ensures KeysOf(KnownOnly(companies, ps[..k + 1])) ==
      KeysOf(KnownOnly(companies, ps[..k])) + (if CompanyKnown(companies, PayloadField(ps[k], CompanyId)) then {PayloadKey(ps[k])} else {})
  {
    KnownOnlyStep(companies, ps, k);
    var s := KnownOnly(companies, ps[..k]);
    if CompanyKnown(companies, PayloadField(ps[k], CompanyId)) {
      KeysOfAppend(s, ps[k]);
    }
  }

  lemma KeysOfAppend(s: seq<Record>, p: Record)
    ensures KeysOf(s + [p]) == KeysOf(s) + {PayloadKey(p)}
  {
    assert forall q :: q in s + [p] <==> q in s || q == p;
  }

  /** The loop with the fix: the key of every payload of a stored company is
      remembered, so a later payload with the same key is skipped. */
  method KeepAdmittedOnce(companies: seq<Row>, rows: seq<Row>, payloads: seq<Record>) returns (results: seq<Record>)
    ensures results == AdmittedOnce(companies, rows, payloads)
  {
    results := [];
    var seen: set<(Value, Value)> := {};
    var k := 0;
    assert payloads[..0] == [];
    while k < |payloads|
      invariant 0 <= k <= |payloads|
      invariant results == AdmittedOnce(companies, rows, payloads[..k])
      invariant seen == KeysOf(KnownOnly(companies, payloads[..k]))
    {
      AdmittedOnceStep(companies, rows, payloads, k);
      KnownKeysStep(companies, payloads, k);
      var p := payloads[k];
      var key := PayloadKey(p);
      if CompanyKnown(companies, PayloadField(p, CompanyId)) {
        var existing := ExistingBar(rows, p);
        if existing.None? && key !in seen {
          results := results + [p];
        }
        seen := seen + {key};
      }
      k := k + 1;
    }
    assert payloads[..k] == payloads;
  }

  /** `create_price_data_batch` as intended: while the id sequence is past
      every stored id a batch of validated payloads always commits, and
      afterwards every payload of a stored company has its bar stored. */
  method CreatePriceDataBatchSkippingRepeats(companies: Table, prices: Table, payloads: seq<Record>, now: int) returns (res: Response<seq<Row>>)
    requires companies.Valid() && prices.Valid() && companies != prices
    requires prices.schema == PriceDataTable && forall p :: p in payloads ==> ValidPayload(p)
    modifies prices
    ensures prices.Valid()
    ensures res == Committed(BatchInsert(PriceDataTable, old(prices.rows), old(prices.nextId), AdmittedOnce(companies.rows, old(prices.rows), payloads), now))
    ensures res.Ok? ==> prices.rows == old(prices.rows) + res.body
    ensures !res.Ok? ==> prices.rows == old(prices.rows) && prices.nextId == old(prices.nextId)
    ensures IdsBelow(old(prices.rows), old(prices.nextId)) ==>
      res.Ok? && forall p :: p in payloads && CompanyKnown(companies.rows, PayloadField(p, CompanyId)) ==> Stored(prices.rows, PayloadKey(p))
    ensures References(companies.rows, old(prices.rows)) ==> References(companies.rows, prices.rows)
    ensures IdsBelow(old(prices.rows), old(prices.nextId)) ==> IdsBelow(prices.rows, prices.nextId)
  {
    var known := KnownOnly(companies.rows, payloads);
    KnownOnlyMembers(companies.rows, payloads);
    if IdsBelow(prices.rows, prices.nextId) {
      FreshBatchAccepted(prices.rows, prices.nextId, known, now);
    }
    FreshEntriesKept(prices.rows, known);
    var results := KeepAdmittedOnce(companies.rows, prices.rows, payloads);
    ghost var before := prices.rows;
    var stored := prices.InsertAll(results, now);
    res := Committed(stored);
    if stored.Success? && References(companies.rows, before) {
      BatchReferences(companies.rows, before, stored.value, results);
    }
  }

  // ---------------------------------------------------------------------------
  // list_price_data

  /** The bars that satisfy every filter given: the company when truthy, the
      dates whenever given. */
  predicate Listed(x: Row, companyId: Option<int>, startDate: Option<int>, endDate: Option<int>) {
    (GivenInt(companyId) ==> Field(x, CompanyId) == Int(companyId.value)) && OnOrAfter(x, Date, startDate) && OnOrBefore(x, Date, endDate)
  }

  function ListWhere(companyId: Option<int>, startDate: Option<int>, endDate: Option<int>): (w: seq<Criterion>)
    ensures forall x {:trigger Matches(w, x)} :: Matches(w, x) <==> Listed(x, companyId, startDate, endDate)
  {
    var a := IntIfGiven(CompanyId, companyId) + Since(Date, startDate);
    MatchesAppend(IntIfGiven(CompanyId, companyId), Since(Date, startDate));
    MatchesAppend(a, Until(Date, endDate));
    a + Until(Date, endDate)
  }

  /** `list_price_data`: the filtered bars, newest day first, `skip` passed
      over and at most `limit` kept; the limit is taken as given. */
  function ListPriceData(rows: seq<Row>, skip: nat, limit: nat, companyId: Option<int>, startDate: Option<int>, endDate: Option<int>): (r: seq<Row>)
    ensures |r| <= limit
    ensures forall x :: x in r ==> x in rows && Listed(x, companyId, startDate, endDate)
    ensures Descending(Date, r)
  {
    var q := Query(ListWhere(companyId, startDate, endDate), [OrderKey(Date, Desc)], skip, Some(limit));
    SortedDescending(Date, Run(rows, q));
    Run(rows, q)
  }

  /** With room for all, every matching bar is listed, however many there are. */
  lemma ListPriceDataComplete(rows: seq<Row>, limit: nat, companyId: Option<int>, startDate: Option<int>, endDate: Option<int>)
    requires limit >= |rows|
    ensures forall x :: x in rows && Listed(x, companyId, startDate, endDate) ==> x in ListPriceData(rows, 0, limit, companyId, startDate, endDate)
  {
    RunComplete(rows, Query(ListWhere(companyId, startDate, endDate), [OrderKey(Date, Desc)], 0, Some(limit)));
  }

  /** With no filter given (or only a falsy company), the listing is the
      whole table, newest day first, then paged. */
  lemma ListPriceDataUnfiltered(rows: seq<Row>, skip: nat, limit: nat, companyId: Option<int>)
    requires !GivenInt(companyId)
    ensures ListPriceData(rows, skip, limit, companyId, None, None) == Page(Sort([OrderKey(Date, Desc)], rows), skip, Some(limit))
  {
    assert ListWhere(companyId, None, None) == [];
    RunUnfiltered(rows, [OrderKey(Date, Desc)], skip, Some(limit));
  }

  // ---------------------------------------------------------------------------
  // get_company_price_data

  /** The last day of the window: the given end, or today. */
  function WindowEnd(today: int, endDate: Option<int>): int {
    if endDate.Some? then endDate.value else today
  }

  /** `get_company_price_data`: 404 for an unknown company; otherwise all of
      its bars from the start date to the window's last day, oldest first.
      The start date is a required query parameter, so the handler's
      fallback for a missing one never applies. */
  function GetCompanyPriceData(companies: seq<Row>, rows: seq<Row>, today: int, companyId: int, startDate: int, endDate: Option<int>): (res: Response<seq<Row>>)
    ensures res.Ok? <==> exists c :: c in companies && c.id == companyId
    ensures !res.Ok? ==> res == Rejected(NotFoundStatus, CompanyMissing)
    ensures res.Ok? ==> Ascending(Date, res.body)
    ensures res.Ok? ==> forall x :: x in res.body ==>
      x in rows && InWindow(x, companyId, Some(startDate), Some(WindowEnd(today, endDate)))
  {
    var w := WindowWhere(companyId, Some(startDate), Some(WindowEnd(today, endDate)));
    var q := Query(w, [OrderKey(Date, Asc)], 0, None);
    SortedAscending(Date, Run(rows, q));
    ForCompany(companies, companyId, Run(rows, q))
  }

  /** Every bar of a stored company inside the window is returned. */
  lemma CompanyPriceDataComplete(companies: seq<Row>, rows: seq<Row>, today: int, companyId: int, startDate: int, endDate: Option<int>)
    requires exists c :: c in companies && c.id == companyId
    ensures forall x :: x in rows && InWindow(x, companyId, Some(startDate), Some(WindowEnd(today, endDate))) ==>
      x in GetCompanyPriceData(companies, rows, today, companyId, startDate, endDate).body
  {
    var w := WindowWhere(companyId, Some(startDate), Some(WindowEnd(today, endDate)));
    RunComplete(rows, Query(w, [OrderKey(Date, Asc)], 0, None));
  }

  /** The endpoint answers with the repository's `get_by_company` over the
      window, given room for every bar. */
  lemma CompanyPriceDataIsRepository(companies: seq<Row>, rows: seq<Row>, today: int, companyId: int, startDate: int, endDate: Option<int>)
    requires exists c :: c in companies && c.id == companyId
    ensures GetCompanyPriceData(companies, rows, today, companyId, startDate, endDate)
         == Ok(GetByCompany(rows, companyId, Some(startDate), Some(WindowEnd(today, endDate)), 0, |rows|))
  {
    var w := WindowWhere(companyId, Some(startDate), Some(WindowEnd(today, endDate)));
    RunRoomy(rows, w, [OrderKey(Date, Asc)], |rows|);
  }
}

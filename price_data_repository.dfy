/**
 * The price-bar repository: a company's bars in a date window, the bar of one
 * day, and the batch insert that skips bars already stored.
 */
module PriceDataRepository {
  import opened Wrappers
  import opened Models
  import opened Query
  import opened BaseRepository

  // ---------------------------------------------------------------------------
  // Queries

  /** The bars of one company, optionally bounded by dates on both sides. */
  predicate InWindow(x: Row, companyId: int, startDate: Option<int>, endDate: Option<int>) {
    Field(x, CompanyId) == Int(companyId) && OnOrAfter(x, Date, startDate) && OnOrBefore(x, Date, endDate)
  }

  function WindowWhere(companyId: int, startDate: Option<int>, endDate: Option<int>): (w: seq<Criterion>)
    ensures forall x {:trigger Matches(w, x)} :: Matches(w, x) <==> InWindow(x, companyId, startDate, endDate)
  {
    MatchesAppend(Is(CompanyId, Int(companyId)), Since(Date, startDate));
    MatchesAppend(Is(CompanyId, Int(companyId)) + Since(Date, startDate), Until(Date, endDate));
    Is(CompanyId, Int(companyId)) + Since(Date, startDate) + Until(Date, endDate)
  }

  /** `get_by_company`: stored bars of the company inside the window, oldest
      first, `skip` of them passed over and at most `limit` kept. */
  function GetByCompany(rows: seq<Row>, companyId: int, startDate: Option<int>, endDate: Option<int>, skip: nat, limit: nat): (r: seq<Row>)
    ensures |r| <= limit
    ensures forall x :: x in r ==> x in rows && InWindow(x, companyId, startDate, endDate)
    ensures Ascending(Date, r)
  {
    var q := Query(WindowWhere(companyId, startDate, endDate), [OrderKey(Date, Asc)], skip, Some(limit));
    SortedAscending(Date, Run(rows, q));
    Run(rows, q)
  }

  /** From the first page and with room for all, every bar in the window is
      returned. */
  lemma GetByCompanyComplete(rows: seq<Row>, companyId: int, startDate: Option<int>, endDate: Option<int>, limit: nat)
    requires limit >= |rows|
    ensures forall x :: x in rows && InWindow(x, companyId, startDate, endDate) ==>
      x in GetByCompany(rows, companyId, startDate, endDate, 0, limit)
  {
    var w := WindowWhere(companyId, startDate, endDate);
    RunComplete(rows, Query(w, [OrderKey(Date, Asc)], 0, Some(limit)));
  }

  /** Two consecutive pages of n bars are the page of 2n bars. */
  lemma GetByCompanyPages(rows: seq<Row>, companyId: int, startDate: Option<int>, endDate: Option<int>, skip: nat, n: nat)
    ensures GetByCompany(rows, companyId, startDate, endDate, skip, n) + GetByCompany(rows, companyId, startDate, endDate, skip + n, n)
         == GetByCompany(rows, companyId, startDate, endDate, skip, 2 * n)
  {
    RunPages(rows, WindowWhere(companyId, startDate, endDate), [OrderKey(Date, Asc)], skip, n);
  }

  /** The bar of one company on one day. */
  predicate OnDay(x: Row, companyId: int, day: int) {
    Field(x, CompanyId) == Int(companyId) && Field(x, Date) == Time(day)
  }

  /** `get_by_date`: the company's bar of that day, None exactly when there is none. */
  function GetByDate(rows: seq<Row>, companyId: int, day: int): (r: Option<Row>)
    ensures r.Some? <==> exists x :: x in rows && OnDay(x, companyId, day)
    ensures r.Some? ==> r.value in rows && OnDay(r.value, companyId, day)
  {
    MatchesAppend(Is(CompanyId, Int(companyId)), Is(Date, Time(day)));
    First(rows, Is(CompanyId, Int(companyId)) + Is(Date, Time(day)))
  }

  /** The unique index makes the answer the stored bar itself. */
  lemma GetByDateStored(rows: seq<Row>, i: int)
    requires RowsValid(PriceDataTable, rows) && 0 <= i < |rows|
    ensures Field(rows[i], CompanyId).Int? && Field(rows[i], Date).Time?
    ensures GetByDate(rows, Field(rows[i], CompanyId).i, Field(rows[i], Date).t) == Some(rows[i])
  {
    assert rows[i] in rows;
    PriceDataRowTyped(rows[i].cols);
    var companyId, day := Field(rows[i], CompanyId).i, Field(rows[i], Date).t;
    var r := GetByDate(rows, companyId, day).value;
    var j :| 0 <= j < |rows| && rows[j] == r;
    if j < i {
      PriceDataKeyUnique(rows, j, i);
    } else if i < j {
      PriceDataKeyUnique(rows, i, j);
    }
  }

  // ---------------------------------------------------------------------------
  // Batch insert

  /** What `PriceDataCreate` validation guarantees of a payload: only columns
      of price_data, each of its type, and company_id, date and close given. */
  predicate ValidPayload(p: Record) {
    WellTyped(PriceDataTable, p) && NoBaseColumns(p) && KeyGiven(p) && Close in p && p[Close] != Null
  }

  /** The payload names its company and its date. */
  predicate KeyGiven(p: Record) {
    CompanyId in p && p[CompanyId] != Null && Date in p && p[Date] != Null
  }

  /** The (company_id, date) key of a payload and of a stored bar. */
  function PayloadKey(p: Record): (Value, Value) {
    (PayloadField(p, CompanyId), PayloadField(p, Date))
  }

  function RowKey(x: Row): (Value, Value) {
    (Field(x, CompanyId), Field(x, Date))
  }

  /** Some stored bar has this key. */
  predicate Stored(rows: seq<Row>, key: (Value, Value)) {
    exists x :: x in rows && RowKey(x) == key
  }

  /** The payloads whose key no stored bar has, in input order. */
  function NewEntries(rows: seq<Row>, ps: seq<Record>): (r: seq<Record>)
    ensures |r| <= |ps|
  {
    if ps == [] then []
    else
      var last := ps[|ps| - 1];
      NewEntries(rows, ps[..|ps| - 1]) + (if Stored(rows, PayloadKey(last)) then [] else [last])
  }

  /** A payload is kept exactly when its key is not stored. */
  lemma {:induction false} NewEntriesMembers(rows: seq<Row>, ps: seq<Record>)
    ensures forall p :: p in NewEntries(rows, ps) <==> p in ps && !Stored(rows, PayloadKey(p))
  {
    if ps != [] {
      var last := ps[|ps| - 1];
      assert ps == ps[..|ps| - 1] + [last];
      NewEntriesMembers(rows, ps[..|ps| - 1]);
    }
  }

  /** The keys the bulk lookup finds: stored bars whose company is among the
      payloads' companies and whose date is among their dates. For every
      payload, its key is found exactly when some stored bar has it. */
  function ExistingKeys(rows: seq<Row>, ps: seq<Record>): (keys: set<(Value, Value)>)
    requires forall p :: p in ps ==> KeyGiven(p)
    ensures forall p :: p in ps ==> (PayloadKey(p) in keys <==> Stored(rows, PayloadKey(p)))
  {
    var companyIds := set p | p in ps :: PayloadField(p, CompanyId);
    var dates := set p | p in ps :: PayloadField(p, Date);
    var keys := set x | x in Select(rows, [OneOf(CompanyId, companyIds), OneOf(Date, dates)]) :: RowKey(x);
    assert forall p :: p in ps ==> (PayloadKey(p) in keys <==> Stored(rows, PayloadKey(p))) by {
      forall p | p in ps ensures Stored(rows, PayloadKey(p)) ==> PayloadKey(p) in keys {
        if Stored(rows, PayloadKey(p)) {
          var x :| x in rows && RowKey(x) == PayloadKey(p);
          assert RowKey(x).0 == PayloadKey(p).0 && RowKey(x).1 == PayloadKey(p).1;
          assert KeyGiven(p) && PayloadField(p, CompanyId) != Null && PayloadField(p, Date) != Null;
          assert PayloadField(p, CompanyId) in companyIds && PayloadField(p, Date) in dates;
          LookupFinds(rows, x, companyIds, dates);
        }
      }
    }
    keys
  }

  lemma LookupFinds(rows: seq<Row>, x: Row, companyIds: set<Value>, dates: set<Value>)
    requires x in rows
    requires Field(x, CompanyId) != Null && Field(x, CompanyId) in companyIds
    requires Field(x, Date) != Null && Field(x, Date) in dates
    ensures x in Select(rows, [OneOf(CompanyId, companyIds), OneOf(Date, dates)])
  {
    var w := [OneOf(CompanyId, companyIds), OneOf(Date, dates)];
    assert Holds(w[0], x) && Holds(w[1], x);
  }

  lemma NewEntriesStep(rows: seq<Row>, ps: seq<Record>, k: int)
    requires 0 <= k < |ps|
    ensures NewEntries(rows, ps[..k + 1]) ==
      NewEntries(rows, ps[..k]) + (if Stored(rows, PayloadKey(ps[k])) then [] else [ps[k]])
  {
    assert ps[..k + 1][..k] == ps[..k];
  }

  /** The loop of `create_batch` that keeps, in input order, each payload
      whose key the lookup did not find. */
  method KeepNew(rows: seq<Row>, payloads: seq<Record>, existingKeys: set<(Value, Value)>) returns (newEntries: seq<Record>)
    requires forall p :: p in payloads ==> (PayloadKey(p) in existingKeys <==> Stored(rows, PayloadKey(p)))
    ensures newEntries == NewEntries(rows, payloads)
  {
    newEntries := [];
    var k := 0;
    while k < |payloads|
      invariant 0 <= k <= |payloads|
      invariant newEntries == NewEntries(rows, payloads[..k])
    {
      assert payloads[k] in payloads;
      NewEntriesStep(rows, payloads, k);
      if PayloadKey(payloads[k]) !in existingKeys {
        newEntries := newEntries + [payloads[k]];
      }
      k := k + 1;
    }
    assert payloads[..k] == payloads;
  }

  /** `create_batch` as written: looks up the stored keys among the
      payloads' companies and dates, keeps the payloads whose key is not
      stored, inserts them all in one commit, then refreshes each object.
      Payloads that repeat a key among themselves are all kept, so the commit
      then fails (see `CreateBatchRepeatFails`); a batch that does commit
      never comes back, as the refresh raises after the commit (see
      `CreateBatchRaisesAfterCommit`). */
  method CreateBatch(t: Table, payloads: seq<Record>, now: int) returns (res: Result<seq<Row>, DbError>)
    requires t.Valid() && t.schema == PriceDataTable
    requires forall p :: p in payloads ==> ValidPayload(p)
    modifies t
    ensures t.Valid()
    ensures res == Refreshed(BatchInsert(PriceDataTable, old(t.rows), old(t.nextId), NewEntries(old(t.rows), payloads), now))
    ensures NewEntries(old(t.rows), payloads) != [] ==> res.Failure?
    ensures BatchInsert(PriceDataTable, old(t.rows), old(t.nextId), NewEntries(old(t.rows), payloads), now).Success? ==>
      t.rows == old(t.rows) + BatchInsert(PriceDataTable, old(t.rows), old(t.nextId), NewEntries(old(t.rows), payloads), now).value
    ensures BatchInsert(PriceDataTable, old(t.rows), old(t.nextId), NewEntries(old(t.rows), payloads), now).Failure? ==>
      t.rows == old(t.rows) && t.nextId == old(t.nextId)
    ensures IdsBelow(old(t.rows), old(t.nextId)) ==> IdsBelow(t.rows, t.nextId)
  {
    if payloads == [] {
      return Success([]);
    }
    var existingKeys := ExistingKeys(t.rows, payloads);
    var newEntries := KeepNew(t.rows, payloads, existingKeys);
    if newEntries == [] {
      return Success([]);
    }
    NewEntriesMembers(t.rows, payloads);
    var stored := t.InsertAll(newEntries, now);
    res := Refreshed(stored);
  }

  // ---------------------------------------------------------------------------
  // When a batch is accepted

  /** The record built from a validated payload fits the table. */
  lemma PayloadConforms(p: Record)
    requires ValidPayload(p)
    ensures p.Keys <= PriceDataTable.columns.Keys
    ensures Conforms(PriceDataTable, Materialize(PriceDataTable, p))
  {
    var rec := Materialize(PriceDataTable, p);
    MaterializeKeys(PriceDataTable, p);
    forall c | c in rec ensures HasType(rec[c], PriceDataTable.columns[c].ty) {
      PriceDataDeclared(c);
    }
    forall c | c in PriceDataTable.columns && !PriceDataTable.columns[c].nullable ensures c in rec && rec[c] != Null {
      PriceDataDeclared(c);
    }
  }

  /** A validated payload whose key is not stored is accepted by the table. */
  lemma PayloadAccepted(rows: seq<Row>, p: Record)
    requires ValidPayload(p) && !Stored(rows, PayloadKey(p))
    ensures InsertError(PriceDataTable, rows, p).None?
  {
    PayloadConforms(p);
    var rec := Materialize(PriceDataTable, p);
    MaterializeAt(PriceDataTable, p, CompanyId);
    MaterializeAt(PriceDataTable, p, Date);
    forall r | r in rows ensures !Clashes(PriceDataTable, rec, r.cols) {
      PriceDataClash(rec, r.cols);
      assert RowKey(r) != PayloadKey(p);
    }
  }

  /** The row stored for a payload has the payload's key. */
  lemma MaterializedKey(p: Record, row: Row)
    requires KeyGiven(p) && row.cols == Materialize(PriceDataTable, p)
    ensures RowKey(row) == PayloadKey(p)
  {
  }

  /** Validated payloads whose keys are new and pairwise distinct are all
      accepted in one commit, while the id sequence is past every stored id. */
  lemma {:induction false} DistinctNewKeysAccepted(rows: seq<Row>, nextId: int, ps: seq<Record>, now: int)
    requires IdsBelow(rows, nextId)
    requires forall p :: p in ps ==> ValidPayload(p) && !Stored(rows, PayloadKey(p))
    requires KeysDistinct(ps)
    ensures BatchInsert(PriceDataTable, rows, nextId, ps, now).Success?
    decreases |ps|
  {
    if ps != [] {
      assert ps[0] in ps;
      PayloadAccepted(rows, ps[0]);
      var row := NewRow(nextId, now, Materialize(PriceDataTable, ps[0]));
      MaterializedKey(ps[0], row);
      var rest := ps[1..];
      RestStillNew(rows, row, ps);
      KeysDistinctTail(ps);
      assert IdsBelow(rows + [row], nextId + 1);
      DistinctNewKeysAccepted(rows + [row], nextId + 1, rest, now);
    }
  }

  /** Once the first payload's bar is stored, the other payloads' keys are
      still not stored. */
  lemma RestStillNew(rows: seq<Row>, row: Row, ps: seq<Record>)
    requires ps != [] && RowKey(row) == PayloadKey(ps[0])
    requires forall p :: p in ps ==> ValidPayload(p) && !Stored(rows, PayloadKey(p))
    requires KeysDistinct(ps)
    ensures forall p :: p in ps[1..] ==> ValidPayload(p) && !Stored(rows + [row], PayloadKey(p))
  {
    forall p | p in ps[1..] ensures ValidPayload(p) && !Stored(rows + [row], PayloadKey(p)) {
      var k :| 0 <= k < |ps[1..]| && ps[1..][k] == p;
      assert ps[k + 1] == p && p in ps;
      assert PayloadKey(ps[0]) != PayloadKey(ps[k + 1]);
    }
  }

  lemma KeysDistinctTail(ps: seq<Record>)
    requires ps != [] && KeysDistinct(ps)
    ensures KeysDistinct(ps[1..])
  {
    var rest := ps[1..];
    forall i, j | 0 <= i < j < |rest| ensures PayloadKey(rest[i]) != PayloadKey(rest[j]) {
      assert rest[i] == ps[i + 1] && rest[j] == ps[j + 1];
    }
  }

  /** The stored row of a payload refuses a second insert of that payload. */
  lemma RepeatRefused(rows: seq<Row>, p: Record, row: Row)
    requires ValidPayload(p) && !Stored(rows, PayloadKey(p))
    requires row.cols == Materialize(PriceDataTable, p)
    ensures InsertError(PriceDataTable, rows + [row], p) == Some(IntegrityError)
  {
    PayloadConforms(p);
    var rec := Materialize(PriceDataTable, p);
    MaterializeAt(PriceDataTable, p, CompanyId);
    MaterializeAt(PriceDataTable, p, Date);
    PriceDataClash(rec, row.cols);
    assert row in rows + [row] && Clashes(PriceDataTable, rec, row.cols);
  }

  /** As written, a batch that names the same new bar twice keeps both
      payloads, and the commit fails on the unique index: nothing is stored. */
  lemma CreateBatchRepeatFails(rows: seq<Row>, nextId: int, p: Record, now: int)
    requires ValidPayload(p) && !Stored(rows, PayloadKey(p))
    ensures NewEntries(rows, [p, p]) == [p, p]
    ensures BatchInsert(PriceDataTable, rows, nextId, [p, p], now) == Failure(IntegrityError)
  {
    assert [p, p][..1] == [p];
    assert [p][..0] == [];
    PayloadAccepted(rows, p);
    var row := NewRow(nextId, now, Materialize(PriceDataTable, p));
    RepeatRefused(rows, p, row);
    assert [p, p][1..] == [p];
  }

  /** As written, a batch of one new bar into a table whose id sequence is
      past every id commits, and the call nonetheless fails with
      InvalidRequestError. */
  lemma CreateBatchRaisesAfterCommit(rows: seq<Row>, nextId: int, p: Record, now: int)
    requires IdsBelow(rows, nextId) && ValidPayload(p) && !Stored(rows, PayloadKey(p))
    ensures NewEntries(rows, [p]) == [p]
    ensures BatchInsert(PriceDataTable, rows, nextId, [p], now).Success?
    ensures Refreshed(BatchInsert(PriceDataTable, rows, nextId, [p], now)) == Failure(InvalidRequest)
  {
    assert [p][..0] == [];
    assert KeysDistinct([p]);
    DistinctNewKeysAccepted(rows, nextId, [p], now);
  }

  // ---------------------------------------------------------------------------
  // The batch insert as intended

  /** The keys of some payloads. */
  function KeysOf(ps: seq<Record>): set<(Value, Value)> {
    set p | p in ps :: PayloadKey(p)
  }

  /** No two payloads share a key. */
  predicate KeysDistinct(ps: seq<Record>) {
    forall i, j :: 0 <= i < j < |ps| ==> PayloadKey(ps[i]) != PayloadKey(ps[j])
  }

  /** The payloads whose key is neither stored nor named by an earlier
      payload: each new bar once, at its first mention. */
  function FreshEntries(rows: seq<Row>, ps: seq<Record>): (r: seq<Record>)
    ensures |r| <= |ps|
  {
    if ps == [] then []
    else
      var last := ps[|ps| - 1];
      var init := ps[..|ps| - 1];
      FreshEntries(rows, init) + (if Stored(rows, PayloadKey(last)) || PayloadKey(last) in KeysOf(init) then [] else [last])
  }

  /** The kept payloads are payloads whose keys are not stored. */
  lemma {:induction false} FreshEntriesKept(rows: seq<Row>, ps: seq<Record>)
    ensures forall p :: p in FreshEntries(rows, ps) ==> p in ps && !Stored(rows, PayloadKey(p))
    ensures KeysOf(FreshEntries(rows, ps)) <= KeysOf(ps)
  {
    if ps != [] {
      var last := ps[|ps| - 1];
      var init := ps[..|ps| - 1];
      assert ps == init + [last];
      FreshEntriesKept(rows, init);
      assert KeysOf(ps) == KeysOf(init) + {PayloadKey(last)};
    }
  }

  /** No two kept payloads share a key. */
  lemma {:induction false} FreshEntriesDistinct(rows: seq<Row>, ps: seq<Record>)
    ensures KeysDistinct(FreshEntries(rows, ps))
  {
    if ps != [] {
      var last := ps[|ps| - 1];
      var init := ps[..|ps| - 1];
      FreshEntriesDistinct(rows, init);
      var r0 := FreshEntries(rows, init);
      if !(Stored(rows, PayloadKey(last)) || PayloadKey(last) in KeysOf(init)) {
        FreshEntriesKept(rows, init);
        AppendDistinct(r0, last);
        assert FreshEntries(rows, ps) == r0 + [last];
      } else {
        assert FreshEntries(rows, ps) == r0;
      }
    }
  }

  /** A payload whose key no payload of a key-distinct list has keeps the
      list key-distinct when appended. */
  lemma AppendDistinct(r0: seq<Record>, last: Record)
    requires KeysDistinct(r0) && PayloadKey(last) !in KeysOf(r0)
    ensures KeysDistinct(r0 + [last])
  {
    var r := r0 + [last];
    forall i, j | 0 <= i < j < |r| ensures PayloadKey(r[i]) != PayloadKey(r[j]) {
      if j == |r0| {
        assert r[i] == r0[i] && r0[i] in r0 && r[j] == last;
      } else {
        assert r[i] == r0[i] && r[j] == r0[j];
      }
    }
  }

  /** Every payload's key is stored already or is the key of a kept payload. */
  lemma {:induction false} FreshEntriesCover(rows: seq<Row>, ps: seq<Record>)
    ensures forall p :: p in ps ==> Stored(rows, PayloadKey(p)) || PayloadKey(p) in KeysOf(FreshEntries(rows, ps))
  {
    if ps != [] {
      var last := ps[|ps| - 1];
      var init := ps[..|ps| - 1];
      assert ps == init + [last];
      FreshEntriesCover(rows, init);
      var r0 := FreshEntries(rows, init);
      var r := FreshEntries(rows, ps);
      assert KeysOf(r0) <= KeysOf(r);
      if !Stored(rows, PayloadKey(last)) && PayloadKey(last) in KeysOf(init) {
        var q :| q in init && PayloadKey(q) == PayloadKey(last);
      }
    }
  }

  lemma FreshEntriesStep(rows: seq<Row>, ps: seq<Record>, k: int)
    requires 0 <= k < |ps|
    ensures FreshEntries(rows, ps[..k + 1]) ==
      FreshEntries(rows, ps[..k]) + (if Stored(rows, PayloadKey(ps[k])) || PayloadKey(ps[k]) in KeysOf(ps[..k]) then [] else [ps[k]])
  {
    assert ps[..k + 1][..k] == ps[..k];
  }

  /** The loop of `create_batch` with the fix: a key once kept is added to
      the keys to skip, so a repeated bar is kept only at its first mention. */
  method KeepFresh(rows: seq<Row>, payloads: seq<Record>, existingKeys: set<(Value, Value)>) returns (newEntries: seq<Record>)
    requires forall p :: p in payloads ==> (PayloadKey(p) in existingKeys <==> Stored(rows, PayloadKey(p)))
    ensures newEntries == FreshEntries(rows, payloads)
  {
    newEntries := [];
    var skip := existingKeys;
    var k := 0;
    while k < |payloads|
      invariant 0 <= k <= |payloads|
      invariant newEntries == FreshEntries(rows, payloads[..k])
      invariant skip == existingKeys + KeysOf(payloads[..k])
    {
      assert payloads[k] in payloads;
      FreshEntriesStep(rows, payloads, k);
      var key := PayloadKey(payloads[k]);
      if key !in skip {
        newEntries := newEntries + [payloads[k]];
      }
      skip := skip + {key};
      assert KeysOf(payloads[..k + 1]) == KeysOf(payloads[..k]) + {key} by {
        assert payloads[..k + 1] == payloads[..k] + [payloads[k]];
      }
      k := k + 1;
    }
    assert payloads[..k] == payloads;
  }

  /** The kept payloads of validated payloads are accepted while the id
      sequence is past every stored id, and once they are stored every
      payload's bar is. */
  lemma FreshBatchAccepted(rows: seq<Row>, nextId: int, ps: seq<Record>, now: int)
    requires IdsBelow(rows, nextId)
    requires forall p :: p in ps ==> ValidPayload(p)
    ensures BatchInsert(PriceDataTable, rows, nextId, FreshEntries(rows, ps), now).Success?
    ensures forall p :: p in ps ==>
      Stored(rows + BatchInsert(PriceDataTable, rows, nextId, FreshEntries(rows, ps), now).value, PayloadKey(p))
  {
    var kept := FreshEntries(rows, ps);
    FreshEntriesKept(rows, ps);
    FreshEntriesDistinct(rows, ps);
    FreshEntriesCover(rows, ps);
    DistinctNewKeysAccepted(rows, nextId, kept, now);
    var added := BatchInsert(PriceDataTable, rows, nextId, kept, now).value;
    forall k | 0 <= k < |kept| ensures KeyGiven(kept[k]) && added[k].cols == Materialize(PriceDataTable, kept[k]) {
      assert kept[k] in kept;
    }
    StoredAfter(rows, added, ps, kept);
  }

  /** `create_batch` as intended: each new bar is kept once, at its first
      mention, and the stored rows are handed back. While the id sequence is
      past every stored id a batch of validated payloads always commits, and
      afterwards every payload's bar is stored. */
  method CreateBatchSkippingRepeats(t: Table, payloads: seq<Record>, now: int) returns (res: Result<seq<Row>, DbError>)
    requires t.Valid() && t.schema == PriceDataTable
    requires forall p :: p in payloads ==> ValidPayload(p)
    modifies t
    ensures t.Valid()
    ensures res == BatchInsert(PriceDataTable, old(t.rows), old(t.nextId), FreshEntries(old(t.rows), payloads), now)
    ensures res.Success? ==> t.rows == old(t.rows) + res.value
    ensures res.Failure? ==> t.rows == old(t.rows) && t.nextId == old(t.nextId)
    ensures IdsBelow(old(t.rows), old(t.nextId)) ==> res.Success? && forall p :: p in payloads ==> Stored(t.rows, PayloadKey(p))
    ensures IdsBelow(old(t.rows), old(t.nextId)) ==> IdsBelow(t.rows, t.nextId)
  {
    if IdsBelow(t.rows, t.nextId) {
      FreshBatchAccepted(t.rows, t.nextId, payloads, now);
    }
    if payloads == [] {
      return Success([]);
    }
    var existingKeys := ExistingKeys(t.rows, payloads);
    var newEntries := KeepFresh(t.rows, payloads, existingKeys);
    if newEntries == [] {
      return Success([]);
    }
    FreshEntriesKept(t.rows, payloads);
    res := t.InsertAll(newEntries, now);
  }

  /** Once the kept payloads are stored, every payload's bar is. */
  lemma StoredAfter(rows: seq<Row>, added: seq<Row>, ps: seq<Record>, kept: seq<Record>)
    requires |added| == |kept|
    requires forall k :: 0 <= k < |kept| ==> KeyGiven(kept[k]) && added[k].cols == Materialize(PriceDataTable, kept[k])
    requires forall p :: p in ps ==> Stored(rows, PayloadKey(p)) || PayloadKey(p) in KeysOf(kept)
    ensures forall p :: p in ps ==> Stored(rows + added, PayloadKey(p))
  {
    forall p | p in ps ensures Stored(rows + added, PayloadKey(p)) {
      if !Stored(rows, PayloadKey(p)) {
        var q :| q in kept && PayloadKey(q) == PayloadKey(p);
        var k :| 0 <= k < |kept| && kept[k] == q;
        MaterializedKey(q, added[k]);
        assert (rows + added)[|rows| + k] == added[k];
      } else {
        var x :| x in rows && RowKey(x) == PayloadKey(p);
        assert x in rows + added;
      }
    }
  }
}

/**
 * The backtest endpoints: create, list with the optional filters, the
 * lookup by id, the placeholder run, delete, and compare. `stamp` stands for
 * the clock formatted as year-month-day hour:minute.
 */
module BacktestRoutes {
  import opened Wrappers
  import opened Models
  import opened Query
  import opened BaseRepository
  import opened BacktestRepository
  import opened Http

  const BacktestMissing: string := "Backtest not found"
  const SomeBacktestMissing: string := "One or more backtests not found"
  const Deleted: string := "Backtest deleted successfully"

  /** `create_backtest`: the insert of a validated backtest, whose error
      is the commit's. The table has no unique index, so the backtest is
      stored exactly when its strings fit their columns and the next id is
      free. */
  method CreateBacktest(backtests: Table, payload: Record, now: int) returns (res: Response<Row>)
    requires backtests.Valid() && backtests.schema == BacktestTable && CreatePayload(BacktestTable, payload)
    modifies backtests
    ensures backtests.Valid()
    ensures if CreateError(BacktestTable, old(backtests.rows), old(backtests.nextId), payload).None? then
        && res == Ok(NewRow(old(backtests.nextId), now, Materialize(BacktestTable, payload)))
        && backtests.rows == old(backtests.rows) + [res.body]
      else
        && res == Failed(CreateError(BacktestTable, old(backtests.rows), old(backtests.nextId), payload).value)
        && backtests.rows == old(backtests.rows)
    ensures res.Ok? <==> WithinLengths(BacktestTable, payload) && !IdTaken(old(backtests.rows), old(backtests.nextId))
    ensures IdsBelow(old(backtests.rows), old(backtests.nextId)) ==> IdsBelow(backtests.rows, backtests.nextId)
  {
    BacktestDefaultsTyped();
    UnindexedCreateError(BacktestTable, backtests.rows, backtests.nextId, payload);
    var stored := backtests.Create(payload, now);
    res := Committed(stored);
  }

  /** `list_backtests`: the repository's `get_filtered` filters (strategy when
      truthy, minimum return whenever given), newest first, paged, with the
      limit taken as given. */
  function ListBacktests(rows: seq<Row>, skip: nat, limit: nat, strategyType: Option<string>, minReturn: Option<real>): (r: seq<Row>)
    ensures |r| <= limit
    ensures forall x :: x in r ==> x in rows && Filtered(x, strategyType, minReturn)
    ensures Descending(CreatedAt, r)
  {
    var q := Query(FilterWhere(strategyType, minReturn), NewestFirst, skip, Some(limit));
    SortedDescending(CreatedAt, Run(rows, q));
    Run(rows, q)
  }

  /** Within the repository's cap the listing is `get_filtered`. */
  lemma ListBacktestsIsFiltered(rows: seq<Row>, skip: nat, limit: nat, strategyType: Option<string>, minReturn: Option<real>)
    requires limit <= MaxLimit
    ensures ListBacktests(rows, skip, limit, strategyType, minReturn) == GetFiltered(rows, strategyType, minReturn, skip, limit)
  {
    assert Min(limit, MaxLimit) == limit;
  }

  /** With room for all, every matching backtest is listed, however many there are. */
  lemma ListBacktestsComplete(rows: seq<Row>, limit: nat, strategyType: Option<string>, minReturn: Option<real>)
    requires limit >= |rows|
    ensures forall x :: x in rows && Filtered(x, strategyType, minReturn) ==> x in ListBacktests(rows, 0, limit, strategyType, minReturn)
  {
    RunComplete(rows, Query(FilterWhere(strategyType, minReturn), NewestFirst, 0, Some(limit)));
  }

  /** `get_backtest`: the backtest with that id, or 404. */
  function GetBacktest(rows: seq<Row>, id: int): (res: Response<Row>)
    ensures res.Ok? <==> exists x :: x in rows && x.id == id
    ensures res.Ok? ==> res.body in rows && res.body.id == id
    ensures !res.Ok? ==> res == Rejected(NotFoundStatus, BacktestMissing)
  {
    FetchById(rows, id, BacktestMissing)
  }

  // ---------------------------------------------------------------------------
  // run_backtest

  /** The name of a run: the one given, or a generated one when none or an
      empty one is given. */
  function RunName(strategyType: string, name: Option<string>, stamp: string): string {
    if GivenText(name) then name.value else strategyType + " Backtest - " + stamp
  }

  /** The performance columns a run fills with placeholder zeros. */
  const Metrics: set<ColumnName> := {TotalReturn, AnnualizedReturn, SharpeRatio, MaxDrawdown, WinRate}

  /** The columns a run leaves NULL. */
  const Unset: set<ColumnName> := {Description, Trades, EquityCurve, CreatedBy}

  /** The columns a run sets. */
  const RunColumns: set<ColumnName> := Metrics + {Name, StrategyType, Parameters, StartDate, EndDate, TradesCount}

  /** The value a run gives one of its columns. */
  function RunValue(c: ColumnName, strategyType: string, parameters: string, startDate: int, endDate: int, name: string): Value {
    if c in Metrics then Real(0.0)
    else if c == TradesCount then Int(0)
    else if c == Name then Text(name)
    else if c == StrategyType then Text(strategyType)
    else if c == Parameters then Json(parameters)
    else if c == StartDate then Time(startDate)
    else Time(endDate)
  }

  /** The keyword arguments of the placeholder record. */
  function RunRecord(strategyType: string, parameters: string, startDate: int, endDate: int, name: string): Record {
    map c | c in RunColumns :: RunValue(c, strategyType, parameters, startDate, endDate, name)
  }

  /** A column a run sets is declared, and the run's value has its type. */
  lemma RunValueTyped(c: ColumnName, strategyType: string, parameters: string, startDate: int, endDate: int, name: string)
    requires c in RunColumns
    ensures c in BacktestTable.columns && c !in BaseColumns
    ensures HasType(RunValue(c, strategyType, parameters, startDate, endDate, name), BacktestTable.columns[c].ty)
  {
  }

  /** Every key of the placeholder record is a column, of the column's type. */
  lemma RunRecordTyped(strategyType: string, parameters: string, startDate: int, endDate: int, name: string)
    ensures WellTyped(BacktestTable, RunRecord(strategyType, parameters, startDate, endDate, name))
    ensures NoBaseColumns(RunRecord(strategyType, parameters, startDate, endDate, name))
  {
    var p := RunRecord(strategyType, parameters, startDate, endDate, name);
    forall c | c in p ensures c in BacktestTable.columns && c !in BaseColumns && HasType(p[c], BacktestTable.columns[c].ty) {
      RunValueTyped(c, strategyType, parameters, startDate, endDate, name);
    }
  }

  /** The placeholder record is a valid create payload. */
  lemma RunRecordValid(strategyType: string, parameters: string, startDate: int, endDate: int, name: string)
    ensures CreatePayload(BacktestTable, RunRecord(strategyType, parameters, startDate, endDate, name))
  {
    var p := RunRecord(strategyType, parameters, startDate, endDate, name);
    RunRecordTyped(strategyType, parameters, startDate, endDate, name);
    forall c | c in BacktestTable.columns && !BacktestTable.columns[c].nullable ensures Given(p, c) {
      assert c in {Name, StrategyType, Parameters, StartDate, EndDate};
    }
  }

  /** What the row stored from the placeholder record holds in one column:
      the run's value, or NULL where the run sets nothing. */
  lemma RunRowField(strategyType: string, parameters: string, startDate: int, endDate: int, name: string, row: Row, c: ColumnName)
    requires row.cols == Materialize(BacktestTable, RunRecord(strategyType, parameters, startDate, endDate, name))
    requires c in BacktestTable.columns
    ensures c in RunColumns ==> Field(row, c) == RunValue(c, strategyType, parameters, startDate, endDate, name)
    ensures c !in RunColumns ==> Field(row, c) == Null
  {
    var p := RunRecord(strategyType, parameters, startDate, endDate, name);
    BacktestColumn(c);
    MaterializeAt(BacktestTable, p, c);
    if c in RunColumns {
      assert p[c] == RunValue(c, strategyType, parameters, startDate, endDate, name);
    } else {
      assert c !in p;
    }
  }

  /** No column of the backtest table is a base column, and none has a default. */
  lemma BacktestColumn(c: ColumnName)
    requires c in BacktestTable.columns
    ensures c !in BaseColumns && BacktestTable.columns[c].default == Null
  {
  }

  /** The stored row holds the run's value in every column the run sets. */
  predicate HoldsRun(row: Row, strategyType: string, parameters: string, startDate: int, endDate: int, name: string) {
    forall c :: c in RunColumns ==> Field(row, c) == RunValue(c, strategyType, parameters, startDate, endDate, name)
  }

  lemma RunRowValues(strategyType: string, parameters: string, startDate: int, endDate: int, name: string, row: Row)
    requires row.cols == Materialize(BacktestTable, RunRecord(strategyType, parameters, startDate, endDate, name))
    ensures HoldsRun(row, strategyType, parameters, startDate, endDate, name)
  {
    forall c | c in RunColumns ensures Field(row, c) == RunValue(c, strategyType, parameters, startDate, endDate, name) {
      RunValueTyped(c, strategyType, parameters, startDate, endDate, name);
      RunRowField(strategyType, parameters, startDate, endDate, name, row, c);
    }
  }

  // The stored placeholder row, a few columns at a time.

  lemma RunRowNamed(strategyType: string, parameters: string, startDate: int, endDate: int, name: string, row: Row)
    requires HoldsRun(row, strategyType, parameters, startDate, endDate, name)
    ensures Field(row, Name) == Text(name) && Field(row, StrategyType) == Text(strategyType)
    ensures Field(row, Parameters) == Json(parameters)
  {
    assert Name in RunColumns && StrategyType in RunColumns && Parameters in RunColumns;
  }

  lemma RunRowDates(strategyType: string, parameters: string, startDate: int, endDate: int, name: string, row: Row)
    requires HoldsRun(row, strategyType, parameters, startDate, endDate, name)
    ensures Field(row, StartDate) == Time(startDate) && Field(row, EndDate) == Time(endDate)
    ensures Field(row, TradesCount) == Int(0)
  {
    assert StartDate in RunColumns && EndDate in RunColumns && TradesCount in RunColumns;
  }

  lemma RunRowMetrics(strategyType: string, parameters: string, startDate: int, endDate: int, name: string, row: Row)
    requires HoldsRun(row, strategyType, parameters, startDate, endDate, name)
    ensures forall c :: c in Metrics ==> Field(row, c) == Real(0.0)
  {
    assert Metrics <= RunColumns;
  }

  lemma RunRowUnset(strategyType: string, parameters: string, startDate: int, endDate: int, name: string, row: Row)
    requires row.cols == Materialize(BacktestTable, RunRecord(strategyType, parameters, startDate, endDate, name))
    ensures forall c :: c in Unset ==> Field(row, c) == Null
  {
    forall c | c in Unset ensures Field(row, c) == Null {
      UnsetColumn(c);
      RunRowField(strategyType, parameters, startDate, endDate, name, row, c);
    }
  }

  /** A column a run leaves NULL is declared and is not one the run sets. */
  lemma UnsetColumn(c: ColumnName)
    requires c in Unset
    ensures c in BacktestTable.columns && c !in RunColumns
  {
  }

  /** The run's name fits the name column (100 characters) and its strategy
      the strategy column (50). */
  predicate RunFits(strategyType: string, name: Option<string>, stamp: string) {
    |RunName(strategyType, name, stamp)| <= 100 && |strategyType| <= 50
  }

  /** The placeholder record's strings fit exactly when the name and the
      strategy do; its other values are not strings. */
  lemma RunRecordFits(strategyType: string, parameters: string, startDate: int, endDate: int, name: string)
    ensures WithinLengths(BacktestTable, RunRecord(strategyType, parameters, startDate, endDate, name)) <==>
      |name| <= 100 && |strategyType| <= 50
  {
    var p := RunRecord(strategyType, parameters, startDate, endDate, name);
    assert Name in RunColumns && StrategyType in RunColumns;
    assert p[Name] == Text(name) && p[StrategyType] == Text(strategyType);
    if |name| <= 100 && |strategyType| <= 50 {
      forall c | c in p && c in BacktestTable.columns ensures FitsLength(p[c], BacktestTable.columns[c].ty) {
        if c != Name && c != StrategyType {
          assert !p[c].Text?;
        }
      }
    }
  }

  /** `run_backtest`: stores and returns a placeholder backtest. It carries
      the given name when one is given and not empty, otherwise
      "<strategy> Backtest - <stamp>"; every metric is 0.0 and the trade count
      0; the columns the run does not set are NULL. The insert is refused
      with a data error when the name or the strategy is too long for its
      column, and with an integrity error when the next id is taken. */
  method RunBacktest(backtests: Table, strategyType: string, parameters: string, startDate: int, endDate: int,
                     name: Option<string>, stamp: string, now: int) returns (res: Response<Row>)
    requires backtests.Valid() && backtests.schema == BacktestTable
    modifies backtests
    ensures backtests.Valid()
    ensures res.Ok? <==> RunFits(strategyType, name, stamp) && !IdTaken(old(backtests.rows), old(backtests.nextId))
    ensures !RunFits(strategyType, name, stamp) ==> res == Failed(DataError)
    ensures RunFits(strategyType, name, stamp) && IdTaken(old(backtests.rows), old(backtests.nextId)) ==> res == Failed(IntegrityError)
    ensures !res.Ok? ==> backtests.rows == old(backtests.rows)
    ensures res.Ok? ==> res.body.id == old(backtests.nextId) && backtests.rows == old(backtests.rows) + [res.body]
    ensures res.Ok? && GivenText(name) ==> Field(res.body, Name) == Text(name.value)
    ensures res.Ok? && !GivenText(name) ==> Field(res.body, Name) == Text(strategyType + " Backtest - " + stamp)
    ensures res.Ok? ==> Field(res.body, StrategyType) == Text(strategyType) && Field(res.body, Parameters) == Json(parameters)
    ensures res.Ok? ==> Field(res.body, StartDate) == Time(startDate) && Field(res.body, EndDate) == Time(endDate)
    ensures res.Ok? ==> forall c :: c in Metrics ==> Field(res.body, c) == Real(0.0)
    ensures res.Ok? ==> Field(res.body, TradesCount) == Int(0)
    ensures res.Ok? ==> forall c :: c in Unset ==> Field(res.body, c) == Null
    ensures IdsBelow(old(backtests.rows), old(backtests.nextId)) ==> IdsBelow(backtests.rows, backtests.nextId)
  {
    var n := RunName(strategyType, name, stamp);
    var record := RunRecord(strategyType, parameters, startDate, endDate, n);
    RunRecordValid(strategyType, parameters, startDate, endDate, n);
    RunRecordFits(strategyType, parameters, startDate, endDate, n);
    BacktestDefaultsTyped();
    UnindexedCreateError(BacktestTable, backtests.rows, backtests.nextId, record);
    res := CreateBacktest(backtests, record, now);
    if res.Ok? {
      RunRowValues(strategyType, parameters, startDate, endDate, n, res.body);
      RunRowNamed(strategyType, parameters, startDate, endDate, n, res.body);
      RunRowDates(strategyType, parameters, startDate, endDate, n, res.body);
      RunRowMetrics(strategyType, parameters, startDate, endDate, n, res.body);
      RunRowUnset(strategyType, parameters, startDate, endDate, n, res.body);
    }
  }

  // ---------------------------------------------------------------------------
  // delete_backtest and compare_backtests

  /** `delete_backtest`: 404 when no backtest has the id; otherwise that one
      backtest is removed and every other stays. */
  method DeleteBacktest(backtests: Table, id: int) returns (res: Response<string>)
    requires backtests.Valid()
    modifies backtests
    ensures backtests.Valid()
    ensures res.Ok? <==> exists x :: x in old(backtests.rows) && x.id == id
    ensures !res.Ok? ==> res == Rejected(NotFoundStatus, BacktestMissing) && backtests.rows == old(backtests.rows)
    ensures res.Ok? ==> res.body == Deleted
    ensures forall x :: x in backtests.rows <==> x in old(backtests.rows) && x.id != id
  {
    var removed := backtests.Remove(id);
    if removed.Failure? {
      return Rejected(NotFoundStatus, BacktestMissing);
    }
    ghost var i := IndexOf(old(backtests.rows), id);
    RemoveStored(backtests.schema, old(backtests.rows), i);
    return Ok(Deleted);
  }

  /** `compare_backtests`: the stored backtests whose id is asked for, in
      storage order, or 404 when there are fewer of them than ids asked. */
  function CompareBacktests(rows: seq<Row>, ids: seq<int>): (res: Response<seq<Row>>)
    ensures !res.Ok? ==> res == Rejected(NotFoundStatus, SomeBacktestMissing)
    ensures res.Ok? ==> |res.body| == |ids| && forall x :: x in res.body <==> x in rows && x.id in ids
  {
    var found := Select(rows, IdIn(ids));
    if |found| != |ids| then Rejected(NotFoundStatus, SomeBacktestMissing) else Ok(found)
  }

  /** On a valid table the comparison answers exactly when every id asked
      for is stored and none is asked twice; a repeated id is refused even
      when it is stored. */
  lemma CompareBacktestsFound(rows: seq<Row>, ids: seq<int>)
    requires RowsValid(BacktestTable, rows)
    ensures CompareBacktests(rows, ids).Ok? <==> (forall i :: i in ids ==> Get(rows, i).Some?) && Distinct(ids)
  {
    FoundAllExactly(rows, ids);
  }

  /** The comparison holds the same backtests as `get_multiple_by_ids`, which
      only orders them newest first. */
  lemma CompareIsMultipleByIds(rows: seq<Row>, ids: seq<int>)
    requires CompareBacktests(rows, ids).Ok?
    ensures multiset(CompareBacktests(rows, ids).body) == multiset(GetMultipleByIds(rows, ids))
  {
    RunComplete(rows, Query(IdIn(ids), NewestFirst, 0, None));
  }
}

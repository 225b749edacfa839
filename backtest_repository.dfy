/**
 * The backtest repository: listings by strategy and by optional filters,
 * newest first and capped at 500 rows, and the lookup of several backtests
 * by id. A lookup by ids returns each stored backtest once, however often
 * its id is repeated, so its size tells whether every id was found only
 * when the ids are distinct.
 */
module BacktestRepository {
  import opened Wrappers
  import opened Models
  import opened Query
  import opened BaseRepository

  /** The most rows a listing returns, whatever limit the caller asks for. */
  const MaxLimit: nat := 500

  /** Every listing is ordered by creation time, newest first. */
  const NewestFirst: seq<OrderKey> := [OrderKey(CreatedAt, Desc)]

  // ---------------------------------------------------------------------------
  // get_by_strategy

  /** `get_by_strategy`: the backtests of exactly that strategy type, newest
      first, `skip` passed over and at most `limit` kept, never more than 500. */
  function GetByStrategy(rows: seq<Row>, strategyType: string, skip: nat, limit: nat): (r: seq<Row>)
    ensures |r| <= limit && |r| <= MaxLimit
    ensures forall x :: x in r ==> x in rows && Field(x, StrategyType) == Text(strategyType)
    ensures Descending(CreatedAt, r)
  {
    var q := Query(Is(StrategyType, Text(strategyType)), NewestFirst, skip, Some(Min(limit, MaxLimit)));
    SortedDescending(CreatedAt, Run(rows, q));
    Run(rows, q)
  }

  /** From the first row and with room for all, every backtest of the strategy is listed. */
  lemma GetByStrategyComplete(rows: seq<Row>, strategyType: string, limit: nat)
    requires Min(limit, MaxLimit) >= |rows|
    ensures forall x :: x in rows && Field(x, StrategyType) == Text(strategyType) ==> x in GetByStrategy(rows, strategyType, 0, limit)
  {
    RunComplete(rows, Query(Is(StrategyType, Text(strategyType)), NewestFirst, 0, Some(Min(limit, MaxLimit))));
  }

  // ---------------------------------------------------------------------------
  // get_filtered

  /** A total return of at least the minimum, when a minimum is given; a
      backtest without a total return never reaches one. */
  predicate ReturnAtLeast(x: Row, minReturn: Option<real>) {
    minReturn.Some? ==> Field(x, TotalReturn).Real? && minReturn.value <= Field(x, TotalReturn).x
  }

  function ReturnWhere(minReturn: Option<real>): (w: seq<Criterion>)
    ensures forall x {:trigger Matches(w, x)} :: Matches(w, x) <==> ReturnAtLeast(x, minReturn)
  {
    match minReturn
    case None => []
    case Some(m) => AtLeastValue(TotalReturn, Real(m))
  }

  /** The strategy type when truthy, the minimum return whenever given (0.0 included). */
  predicate Filtered(x: Row, strategyType: Option<string>, minReturn: Option<real>) {
    (GivenText(strategyType) ==> Field(x, StrategyType) == Text(strategyType.value)) && ReturnAtLeast(x, minReturn)
  }

  function FilterWhere(strategyType: Option<string>, minReturn: Option<real>): (w: seq<Criterion>)
    ensures forall x {:trigger Matches(w, x)} :: Matches(w, x) <==> Filtered(x, strategyType, minReturn)
  {
    MatchesAppend(TextIfGiven(StrategyType, strategyType), ReturnWhere(minReturn));
    TextIfGiven(StrategyType, strategyType) + ReturnWhere(minReturn)
  }

  /** `get_filtered`: the filtered backtests, newest first, never more than 500. */
  function GetFiltered(rows: seq<Row>, strategyType: Option<string>, minReturn: Option<real>, skip: nat, limit: nat): (r: seq<Row>)
    ensures |r| <= limit && |r| <= MaxLimit
    ensures forall x :: x in r ==> x in rows && Filtered(x, strategyType, minReturn)
    ensures Descending(CreatedAt, r)
  {
    var q := Query(FilterWhere(strategyType, minReturn), NewestFirst, skip, Some(Min(limit, MaxLimit)));
    SortedDescending(CreatedAt, Run(rows, q));
    Run(rows, q)
  }

  /** From the first row and with room for all, every filtered backtest is listed. */
  lemma GetFilteredComplete(rows: seq<Row>, strategyType: Option<string>, minReturn: Option<real>, limit: nat)
    requires Min(limit, MaxLimit) >= |rows|
    ensures forall x :: x in rows && Filtered(x, strategyType, minReturn) ==> x in GetFiltered(rows, strategyType, minReturn, 0, limit)
  {
    RunComplete(rows, Query(FilterWhere(strategyType, minReturn), NewestFirst, 0, Some(Min(limit, MaxLimit))));
  }

  /** A non-empty strategy type through `get_filtered` lists what `get_by_strategy` lists. */
  lemma StrategyIsFiltered(rows: seq<Row>, strategyType: string, skip: nat, limit: nat)
    requires strategyType != ""
    ensures GetFiltered(rows, Some(strategyType), None, skip, limit) == GetByStrategy(rows, strategyType, skip, limit)
  {
    assert FilterWhere(Some(strategyType), None) == Is(StrategyType, Text(strategyType));
  }

  /** With neither filter, the listing is the whole table, newest first, then paged. */
  lemma GetFilteredUnfiltered(rows: seq<Row>, strategyType: Option<string>, skip: nat, limit: nat)
    requires !GivenText(strategyType)
    ensures GetFiltered(rows, strategyType, None, skip, limit) == Page(Sort(NewestFirst, rows), skip, Some(Min(limit, MaxLimit)))
  {
    assert FilterWhere(strategyType, None) == [];
    RunUnfiltered(rows, NewestFirst, skip, Some(Min(limit, MaxLimit)));
  }

  // ---------------------------------------------------------------------------
  // get_multiple_by_ids

  /** The `id IN (...)` condition. */
  function IdIn(ids: seq<int>): (w: seq<Criterion>)
    ensures forall x {:trigger Matches(w, x)} :: Matches(w, x) <==> x.id in ids
  {
    var c := OneOf(Id, set i | i in ids :: Int(i));
    MatchesSingle(c);
    assert forall x :: Holds(c, x) <==> x.id in ids by {
      forall x ensures Holds(c, x) <==> x.id in ids {
        if Holds(c, x) {
          var i :| i in ids && Int(i) == Int(x.id);
        }
      }
    }
    [c]
  }

  /** `get_multiple_by_ids`: exactly the stored backtests whose id is in the
      list, newest first, with no limit. */
  function GetMultipleByIds(rows: seq<Row>, ids: seq<int>): (r: seq<Row>)
    ensures forall x :: x in r <==> x in rows && x.id in ids
    ensures |r| == |Select(rows, IdIn(ids))|
    ensures Descending(CreatedAt, r)
  {
    var q := Query(IdIn(ids), NewestFirst, 0, None);
    RunComplete(rows, q);
    SortedDescending(CreatedAt, Run(rows, q));
    Run(rows, q)
  }

  /** The ids of a sequence of rows. */
  function Ids(s: seq<Row>): set<int> {
    set x | x in s :: x.id
  }

  predicate IdsDistinct(s: seq<Row>) {
    forall i, j :: 0 <= i < j < |s| ==> s[i].id != s[j].id
  }

  predicate Distinct(ids: seq<int>) {
    forall i, j :: 0 <= i < j < |ids| ==> ids[i] != ids[j]
  }

  /** Dropping the first row keeps the ids different, and none of the rest
      has the first row's id. */
  lemma TailIdsDistinct(s: seq<Row>)
    requires s != [] && IdsDistinct(s)
    ensures IdsDistinct(s[1..])
    ensures forall x :: x in s[1..] ==> x.id != s[0].id
  {
    var t := s[1..];
    forall i, j | 0 <= i < j < |t| ensures t[i].id != t[j].id {
      assert t[i] == s[i + 1] && t[j] == s[j + 1];
    }
    forall x | x in t ensures x.id != s[0].id {
      var k :| 0 <= k < |t| && t[k] == x;
      assert s[k + 1] == x;
    }
  }

  /** A row whose id none of the others has can go in front. */
  lemma ConsIdsDistinct(h: Row, t: seq<Row>)
    requires IdsDistinct(t) && forall x :: x in t ==> x.id != h.id
    ensures IdsDistinct([h] + t)
  {
    var s := [h] + t;
    forall i, j | 0 <= i < j < |s| ensures s[i].id != s[j].id {
      assert s[j] == t[j - 1];
      if i > 0 { assert s[i] == t[i - 1]; }
    }
  }

  /** Rows with pairwise different ids are as many as their ids. */
  lemma {:induction false} IdsCount(s: seq<Row>)
    requires IdsDistinct(s)
    ensures |Ids(s)| == |s|
  {
    if s != [] {
      var t := s[1..];
      TailIdsDistinct(s);
      IdsCount(t);
      assert Ids(s) == {s[0].id} + Ids(t) by {
        assert s == [s[0]] + t;
      }
    }
  }

  /** Selecting from rows with pairwise different ids keeps them different. */
  lemma {:induction false} SelectIdsDistinct(rows: seq<Row>, w: seq<Criterion>)
    requires IdsDistinct(rows)
    ensures IdsDistinct(Select(rows, w))
  {
    if rows != [] {
      var t := rows[1..];
      TailIdsDistinct(rows);
      SelectIdsDistinct(t, w);
      if Matches(w, rows[0]) {
        assert Select(rows, w) == [rows[0]] + Select(t, w);
        ConsIdsDistinct(rows[0], Select(t, w));
      } else {
        assert Select(rows, w) == Select(t, w);
      }
    }
  }

  /** A list of ids without repeats, once its first entry is dropped, is
      still without repeats, and no later entry equals the first. */
  lemma TailDistinct(ids: seq<int>)
    requires ids != []
    ensures Distinct(ids) <==> Distinct(ids[1..]) && ids[0] !in ids[1..]
  {
    var t := ids[1..];
    if Distinct(ids) {
      forall i, j | 0 <= i < j < |t| ensures t[i] != t[j] {
        assert t[i] == ids[i + 1] && t[j] == ids[j + 1];
      }
      forall k | 0 <= k < |t| ensures t[k] != ids[0] {
        assert t[k] == ids[k + 1];
      }
    }
    if Distinct(t) && ids[0] !in t {
      forall i, j | 0 <= i < j < |ids| ensures ids[i] != ids[j] {
        assert ids[j] == t[j - 1];
        if i > 0 { assert ids[i] == t[i - 1]; }
      }
    }
  }

  /** A list of ids holds at most as many different ids as entries, exactly
      as many when no id repeats. */
  lemma {:induction false} DistinctCount(ids: seq<int>)
    ensures |set i | i in ids| <= |ids|
    ensures |set i | i in ids| == |ids| <==> Distinct(ids)
  {
    if ids != [] {
      var t := ids[1..];
      DistinctCount(t);
      TailDistinct(ids);
      assert (set i | i in ids) == {ids[0]} + (set i | i in t) by {
        assert ids == [ids[0]] + t;
      }
    }
  }

  /** A part is as large as the whole only when it is the whole. */
  lemma SubsetSize(a: set<int>, b: set<int>)
    requires a <= b
    ensures |a| <= |b|
    ensures |a| == |b| ==> a == b
  {
    assert b == a + (b - a);
    assert a * (b - a) == {};
  }

  /** On a table with unique ids, an `id IN (...)` query finds as many rows
      as ids were asked for exactly when every id is stored and none repeats. */
  lemma {:induction false} FoundAllExactly(rows: seq<Row>, ids: seq<int>)
    requires IdsDistinct(rows)
    ensures |Select(rows, IdIn(ids))| == |ids| <==> (forall i :: i in ids ==> Get(rows, i).Some?) && Distinct(ids)
  {
    var s := Select(rows, IdIn(ids));
    SelectIdsDistinct(rows, IdIn(ids));
    IdsCount(s);
    DistinctCount(ids);
    var asked := set i | i in ids;
    assert Ids(s) <= asked;
    SubsetSize(Ids(s), asked);
    if forall i :: i in ids ==> Get(rows, i).Some? {
      forall i | i in asked ensures i in Ids(s) {
        var x := Get(rows, i).value;
        assert x in s;
      }
      assert Ids(s) == asked;
    }
    if |s| == |ids| {
      assert |Ids(s)| == |asked| && Distinct(ids);
      forall i | i in ids ensures Get(rows, i).Some? {
        assert i in Ids(s);
        var x :| x in s && x.id == i;
      }
    }
  }

  /** The same count holds for the sorted listing of `get_multiple_by_ids`. */
  lemma GetMultipleByIdsCount(rows: seq<Row>, ids: seq<int>)
    requires RowsValid(BacktestTable, rows)
    ensures |GetMultipleByIds(rows, ids)| == |ids| <==> (forall i :: i in ids ==> Get(rows, i).Some?) && Distinct(ids)
  {
    FoundAllExactly(rows, ids);
  }
}

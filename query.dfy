/**
 * The query semantics the repositories and handlers rely on: a conjunction of
 * WHERE conditions, an ORDER BY list, OFFSET and LIMIT, and `.first()`.
 * A query is evaluated on the rows of one table in storage order.
 */
module Query {
  import opened Wrappers
  import opened Models

  function Min(a: int, b: int): int { if a <= b then a else b }

  // ---------------------------------------------------------------------------
  // WHERE

  /** SQL `a <= b` on two values. A NULL operand makes the comparison unknown,
      which a WHERE clause treats as false; so do values of different types. */
  predicate ValueLe(a: Value, b: Value) {
    if a.Int? && b.Int? then a.i <= b.i
    else if a.Real? && b.Real? then a.x <= b.x
    else if a.Time? && b.Time? then a.t <= b.t
    else false
  }

  /** One filter condition. `Equals(c, Null)` is what the ORM emits for
      `column == None`, that is `IS NULL`; with a value it is SQL `=`. */
  datatype Criterion =
    | Equals(col: ColumnName, v: Value)
    | AtLeast(col: ColumnName, v: Value)
    | AtMost(col: ColumnName, v: Value)
    | OneOf(col: ColumnName, vs: set<Value>)

  predicate Holds(c: Criterion, r: Row) {
    match c
    case Equals(col, v) => Field(r, col) == v
    case AtLeast(col, v) => ValueLe(v, Field(r, col))
    case AtMost(col, v) => ValueLe(Field(r, col), v)
    case OneOf(col, vs) => Field(r, col) != Null && Field(r, col) in vs
  }

  /** Chained `.filter(...)` calls combine by AND. */
  predicate Matches(w: seq<Criterion>, r: Row) {
    forall i :: 0 <= i < |w| ==> Holds(w[i], r)
  }

  /** A condition that a caller adds only when `cond` holds. */
  function When(cond: bool, c: Criterion): seq<Criterion> {
    if cond then [c] else []
  }

  /** The rows that satisfy every condition, in storage order. */
  function Select(rows: seq<Row>, w: seq<Criterion>): (s: seq<Row>)
    ensures |s| <= |rows|
    ensures forall r :: r in s <==> r in rows && Matches(w, r)
    ensures multiset(s) <= multiset(rows)
  {
    if rows == [] then []
    else
      assert rows == [rows[0]] + rows[1..];
      if Matches(w, rows[0]) then [rows[0]] + Select(rows[1..], w)
      else Select(rows[1..], w)
  }

  /** With no condition every row is selected, in storage order. */
  lemma {:induction false} SelectAll(rows: seq<Row>)
    ensures Select(rows, []) == rows
  {
    if rows != [] {
      SelectAll(rows[1..]);
      assert Matches([], rows[0]);
      assert rows == [rows[0]] + rows[1..];
    }
  }

  /** Adding conditions never enlarges the selection: the narrower result is
      a sub-multiset of the wider one. */
  lemma {:induction false} SelectNarrows(rows: seq<Row>, w: seq<Criterion>, more: seq<Criterion>)
    ensures multiset(Select(rows, w + more)) <= multiset(Select(rows, w))
  {
    if rows != [] {
      SelectNarrows(rows[1..], w, more);
      if Matches(w + more, rows[0]) {
        forall i | 0 <= i < |w| ensures Holds(w[i], rows[0]) {
          assert (w + more)[i] == w[i];
        }
      }
    }
  }

  /** A condition that holds of every row of the table filters nothing. */
  lemma {:induction false} SelectTrivial(rows: seq<Row>, w: seq<Criterion>, c: Criterion)
    requires forall r :: r in rows ==> Holds(c, r)
    ensures Select(rows, w + [c]) == Select(rows, w)
  {
    if rows != [] {
      assert forall r :: r in rows[1..] ==> r in rows;
      SelectTrivial(rows[1..], w, c);
      assert Matches(w + [c], rows[0]) == Matches(w, rows[0]) by {
        assert rows[0] in rows;
        forall i | 0 <= i < |w| ensures (w + [c])[i] == w[i] { }
        assert (w + [c])[|w|] == c;
      }
    }
  }

  // ---------------------------------------------------------------------------
  // ORDER BY

  /** A sort key: a number (ints, floats and dates all compare as numbers)
      or NULL. */
  datatype Key = Num(n: real) | Missing

  function KeyOf(v: Value): Key {
    if v.Int? then Num(v.i as real)
    else if v.Real? then Num(v.x)
    else if v.Time? then Num(v.t as real)
    else Missing
  }

  /** The strict order on keys. NULL sorts after every value, as in
      PostgreSQL; so it comes last ascending and first descending. */
  predicate KeyLt(a: Key, b: Key) {
    if a.Num? && b.Num? then a.n < b.n else a.Num? && b.Missing?
  }

  datatype SortDir = Asc | Desc

  datatype OrderKey = OrderKey(col: ColumnName, dir: SortDir)

  predicate Precedes(dir: SortDir, a: Key, b: Key) {
    if dir == Asc then KeyLt(a, b) else KeyLt(b, a)
  }

  /** Row a may be listed before row b under the ORDER BY list: the first
      key on which they differ decides, and rows equal on every key may come
      in either order. */
  predicate RowLe(order: seq<OrderKey>, a: Row, b: Row)
    decreases |order|
  {
    if order == [] then true
    else
      var ka := KeyOf(Field(a, order[0].col));
      var kb := KeyOf(Field(b, order[0].col));
      if ka == kb then RowLe(order[1..], a, b) else Precedes(order[0].dir, ka, kb)
  }

  predicate Sorted(order: seq<OrderKey>, s: seq<Row>) {
    forall i, j :: 0 <= i < j < |s| ==> RowLe(order, s[i], s[j])
  }

  /** Any two rows are comparable. */
  lemma {:induction false} RowLeTotal(order: seq<OrderKey>, a: Row, b: Row)
    ensures RowLe(order, a, b) || RowLe(order, b, a)
    decreases |order|
  {
    if order != [] {
      RowLeTotal(order[1..], a, b);
    }
  }

  /** The order is transitive. */
  lemma {:induction false} RowLeTransitive(order: seq<OrderKey>, a: Row, b: Row, c: Row)
    requires RowLe(order, a, b) && RowLe(order, b, c)
    ensures RowLe(order, a, c)
    decreases |order|
  {
    if order != [] {
      var ka := KeyOf(Field(a, order[0].col));
      var kb := KeyOf(Field(b, order[0].col));
      var kc := KeyOf(Field(c, order[0].col));
      if ka == kb && kb == kc {
        RowLeTransitive(order[1..], a, b, c);
      }
    }
  }

  /** Inserts x before the first element it may precede. */
  function Insert(order: seq<OrderKey>, x: Row, s: seq<Row>): (t: seq<Row>)
    ensures multiset(t) == multiset(s) + multiset{x}
  {
    if s == [] then [x]
    else if RowLe(order, x, s[0]) then [x] + s
    else
      assert s == [s[0]] + s[1..];
      [s[0]] + Insert(order, x, s[1..])
  }

  /** The sort the database performs: a stable insertion sort, so rows equal
      on every key keep their storage order. */
  function Sort(order: seq<OrderKey>, s: seq<Row>): (t: seq<Row>)
    ensures multiset(t) == multiset(s)
  {
    if s == [] then []
    else
      assert s == [s[0]] + s[1..];
      Insert(order, s[0], Sort(order, s[1..]))
  }

  /** A row below every row of a sorted sequence may be put in front of it. */
  lemma ConsSorted(order: seq<OrderKey>, y: Row, rest: seq<Row>)
    requires Sorted(order, rest)
    requires forall z :: z in rest ==> RowLe(order, y, z)
    ensures Sorted(order, [y] + rest)
  {
    var t := [y] + rest;
    forall i, j | 0 <= i < j < |t| ensures RowLe(order, t[i], t[j]) {
      assert t[j] == rest[j - 1] && rest[j - 1] in rest;
      if i > 0 {
        assert t[i] == rest[i - 1];
      }
    }
  }

  /** The head of a sorted sequence is below each of its rows. */
  lemma HeadBelowAll(order: seq<OrderKey>, s: seq<Row>)
    requires Sorted(order, s) && s != []
    ensures forall z :: z in s ==> RowLe(order, s[0], z)
  {
    RowLeTotal(order, s[0], s[0]);
    forall z | z in s ensures RowLe(order, s[0], z) {
      var k :| 0 <= k < |s| && s[k] == z;
    }
  }

  lemma {:induction false} InsertSorted(order: seq<OrderKey>, x: Row, s: seq<Row>)
    requires Sorted(order, s)
    ensures Sorted(order, Insert(order, x, s))
  {
    if s == [] {
    } else if RowLe(order, x, s[0]) {
      HeadBelowAll(order, s);
      forall z | z in s ensures RowLe(order, x, z) {
        RowLeTransitive(order, x, s[0], z);
      }
      ConsSorted(order, x, s);
    } else {
      RowLeTotal(order, x, s[0]);
      HeadBelowAll(order, s);
      InsertSorted(order, x, s[1..]);
      var rest := Insert(order, x, s[1..]);
      forall y | y in rest ensures RowLe(order, s[0], y) {
        assert y in multiset(rest);
        if y != x {
          assert y in s[1..];
        }
      }
      ConsSorted(order, s[0], rest);
    }
  }

  /** The sort's output is ordered. */
  lemma {:induction false} SortSorted(order: seq<OrderKey>, s: seq<Row>)
    ensures Sorted(order, Sort(order, s))
  {
    if s != [] {
      SortSorted(order, s[1..]);
      InsertSorted(order, s[0], Sort(order, s[1..]));
    }
  }

  /** Without ORDER BY the rows come in storage order. */
  lemma {:induction false} SortUnordered(s: seq<Row>)
    ensures Sort([], s) == s
  {
    if s != [] {
      SortUnordered(s[1..]);
      assert s == [s[0]] + s[1..];
    }
  }

  // ---------------------------------------------------------------------------
  // OFFSET / LIMIT

  /** `.offset(offset).limit(limit)`: skips `offset` rows, then keeps up to
      `limit` of them (all of them without a limit). */
  function Page(s: seq<Row>, offset: nat, limit: Option<nat>): (p: seq<Row>)
    ensures limit.Some? ==> |p| <= limit.value
    ensures offset >= |s| ==> p == []
    ensures offset < |s| ==> offset + |p| <= |s|
    ensures forall i :: 0 <= i < |p| ==> p[i] == s[offset + i]
    ensures offset < |s| ==> offset + |p| == |s| || (limit.Some? && |p| == limit.value)
  {
    if offset >= |s| then []
    else if limit.Some? && offset + limit.value < |s| then s[offset..offset + limit.value]
    else s[offset..]
  }

  /** Consecutive pages tile the sorted result: page k of size n followed by
      page k+1 is the same as one page of size 2n. */
  lemma PageConcat(s: seq<Row>, offset: nat, n: nat)
    ensures Page(s, offset, Some(n)) + Page(s, offset + n, Some(n)) == Page(s, offset, Some(2 * n))
  {
    var a, b, c := Page(s, offset, Some(n)), Page(s, offset + n, Some(n)), Page(s, offset, Some(2 * n));
    if offset < |s| {
      assert |a| + |b| == |c|;
      forall i | 0 <= i < |c| ensures (a + b)[i] == c[i] {
        if i >= |a| {
          assert (a + b)[i] == b[i - |a|];
        }
      }
    }
  }

  lemma PageSorted(order: seq<OrderKey>, s: seq<Row>, offset: nat, limit: Option<nat>)
    requires Sorted(order, s)
    ensures Sorted(order, Page(s, offset, limit))
  {
    var p := Page(s, offset, limit);
    forall i, j | 0 <= i < j < |p| ensures RowLe(order, p[i], p[j]) {
      assert p[i] == s[offset + i] && p[j] == s[offset + j];
    }
  }

  /** A page holds rows of the sequence it is cut from. */
  lemma PageWithin(s: seq<Row>, offset: nat, limit: Option<nat>)
    ensures forall x :: x in Page(s, offset, limit) ==> x in s
  {
    var p := Page(s, offset, limit);
    forall x | x in p ensures x in s {
      var i :| 0 <= i < |p| && p[i] == x;
      assert p[i] == s[offset + i];
    }
  }

  /** Sorting keeps exactly the rows it is given. */
  lemma SortKeeps(order: seq<OrderKey>, s: seq<Row>)
    ensures forall x :: x in Sort(order, s) <==> x in s
  {
    forall x ensures x in Sort(order, s) <==> x in s {
      assert x in Sort(order, s) <==> x in multiset(Sort(order, s));
      assert x in s <==> x in multiset(s);
    }
  }

  // ---------------------------------------------------------------------------
  // Whole queries

  datatype Query = Query(where: seq<Criterion>, order: seq<OrderKey>, offset: nat, limit: Option<nat>)

  /** `query.filter(...).order_by(...).offset(...).limit(...).all()`. */
  function Run(rows: seq<Row>, q: Query): (r: seq<Row>)
    ensures q.limit.Some? ==> |r| <= q.limit.value
    ensures forall x :: x in r ==> x in rows && Matches(q.where, x)
    ensures Sorted(q.order, r)
  {
    var matching := Select(rows, q.where);
    var sorted := Sort(q.order, matching);
    SortSorted(q.order, matching);
    PageSorted(q.order, sorted, q.offset, q.limit);
    PageWithin(sorted, q.offset, q.limit);
    SortKeeps(q.order, matching);
    Page(sorted, q.offset, q.limit)
  }

  /** From the start and with room for every match, a query returns each
      matching row, as often as it is stored. */
  lemma RunComplete(rows: seq<Row>, q: Query)
    requires q.offset == 0
    requires q.limit.None? || q.limit.value >= |Select(rows, q.where)|
    ensures multiset(Run(rows, q)) == multiset(Select(rows, q.where))
    ensures forall x :: x in rows && Matches(q.where, x) ==> x in Run(rows, q)
  {
    var sorted := Sort(q.order, Select(rows, q.where));
    assert Page(sorted, 0, q.limit) == sorted;
    forall x | x in rows && Matches(q.where, x) ensures x in Run(rows, q) {
      assert x in multiset(sorted);
    }
  }

  /** Consecutive pages of n results are the page of 2n results. */
  lemma RunPages(rows: seq<Row>, w: seq<Criterion>, order: seq<OrderKey>, offset: nat, n: nat)
    ensures Run(rows, Query(w, order, offset, Some(n))) + Run(rows, Query(w, order, offset + n, Some(n)))
         == Run(rows, Query(w, order, offset, Some(2 * n)))
  {
    PageConcat(Sort(order, Select(rows, w)), offset, n);
  }

  /** A list of conditions implied by another selects at least as much. */
  lemma {:induction false} SelectImplied(rows: seq<Row>, wide: seq<Criterion>, narrow: seq<Criterion>)
    requires forall x :: Matches(narrow, x) ==> Matches(wide, x)
    ensures multiset(Select(rows, narrow)) <= multiset(Select(rows, wide))
  {
    if rows != [] {
      SelectImplied(rows[1..], wide, narrow);
    }
  }

  /** From the first row and with room for all, a query whose conditions
      imply another's returns no row the other does not. */
  lemma RunNarrower(rows: seq<Row>, wide: seq<Criterion>, narrow: seq<Criterion>, order: seq<OrderKey>, limit: nat)
    requires forall x :: Matches(narrow, x) ==> Matches(wide, x)
    requires limit >= |rows|
    ensures multiset(Run(rows, Query(narrow, order, 0, Some(limit)))) <= multiset(Run(rows, Query(wide, order, 0, Some(limit))))
  {
    RunComplete(rows, Query(narrow, order, 0, Some(limit)));
    RunComplete(rows, Query(wide, order, 0, Some(limit)));
    SelectImplied(rows, wide, narrow);
  }

  /** A limit that leaves room for every stored row is no limit at all. */
  lemma RunRoomy(rows: seq<Row>, w: seq<Criterion>, order: seq<OrderKey>, n: nat)
    requires n >= |rows|
    ensures Run(rows, Query(w, order, 0, Some(n))) == Run(rows, Query(w, order, 0, None))
  {
    assert |Sort(order, Select(rows, w))| <= n;
  }

  /** Without ORDER BY, a query is the storage-order slice of the matching rows. */
  lemma RunUnordered(rows: seq<Row>, w: seq<Criterion>, offset: nat, limit: Option<nat>)
    ensures Run(rows, Query(w, [], offset, limit)) == Page(Select(rows, w), offset, limit)
  {
    SortUnordered(Select(rows, w));
  }

  /** With no condition and no ORDER BY, a query is the storage-order slice. */
  lemma RunPlain(rows: seq<Row>, offset: nat, limit: Option<nat>)
    ensures Run(rows, Query([], [], offset, limit)) == Page(rows, offset, limit)
  {
    SelectAll(rows);
    SortUnordered(rows);
  }

  /** With no condition, a query is the whole table sorted, then paged. */
  lemma RunUnfiltered(rows: seq<Row>, order: seq<OrderKey>, offset: nat, limit: Option<nat>)
    ensures Run(rows, Query([], order, offset, limit)) == Page(Sort(order, rows), offset, limit)
  {
    SelectAll(rows);
  }

  /** Adding conditions never enlarges the result before paging. */
  lemma RunNarrows(rows: seq<Row>, w: seq<Criterion>, more: seq<Criterion>, order: seq<OrderKey>)
    ensures multiset(Run(rows, Query(w + more, order, 0, None))) <= multiset(Run(rows, Query(w, order, 0, None)))
  {
    RunComplete(rows, Query(w + more, order, 0, None));
    RunComplete(rows, Query(w, order, 0, None));
    SelectNarrows(rows, w, more);
  }

  /** `.first()` without ORDER BY: the first matching row in storage order. */
  function First(rows: seq<Row>, w: seq<Criterion>): (r: Option<Row>)
    ensures r.Some? <==> exists x :: x in rows && Matches(w, x)
    ensures r.Some? ==> r.value in rows && Matches(w, r.value)
    ensures r.Some? ==> r.value == Select(rows, w)[0]
  {
    var s := Select(rows, w);
    if s == [] then None
    else
      assert s[0] in s;
      Some(s[0])
  }

  // ---------------------------------------------------------------------------
  // Conditions as the repositories add them

  /** Python truthiness of optional arguments: None, 0 and "" are false. */
  predicate GivenInt(o: Option<int>) { o.Some? && o.value != 0 }
  predicate GivenText(o: Option<string>) { o.Some? && o.value != "" }

  lemma MatchesAppend(a: seq<Criterion>, b: seq<Criterion>)
    ensures forall x {:trigger Matches(a + b, x)} :: Matches(a + b, x) <==> Matches(a, x) && Matches(b, x)
  {
    forall x ensures Matches(a + b, x) <==> Matches(a, x) && Matches(b, x) {
      if Matches(a, x) && Matches(b, x) {
        forall i | 0 <= i < |a + b| ensures Holds((a + b)[i], x) {
          if i >= |a| { assert (a + b)[i] == b[i - |a|]; }
        }
      }
      if Matches(a + b, x) {
        forall i | 0 <= i < |b| ensures Holds(b[i], x) {
          assert (a + b)[|a| + i] == b[i];
        }
        forall i | 0 <= i < |a| ensures Holds(a[i], x) {
          assert (a + b)[i] == a[i];
        }
      }
    }
  }

  /** A one-condition list holds exactly when its condition does. */
  lemma MatchesSingle(c: Criterion)
    ensures forall x {:trigger Matches([c], x)} :: Matches([c], x) <==> Holds(c, x)
  {
    forall x ensures Matches([c], x) <==> Holds(c, x) {
      assert [c][0] == c;
    }
  }

  /** The row's column holds a timestamp no earlier than the bound, if one is given. */
  predicate OnOrAfter(x: Row, col: ColumnName, bound: Option<int>) {
    bound.Some? ==> Field(x, col).Time? && bound.value <= Field(x, col).t
  }

  /** The row's column holds a timestamp no later than the bound, if one is given. */
  predicate OnOrBefore(x: Row, col: ColumnName, bound: Option<int>) {
    bound.Some? ==> Field(x, col).Time? && Field(x, col).t <= bound.value
  }

  /** The lower date bound a repository adds when one is given. */
  function Since(col: ColumnName, bound: Option<int>): (w: seq<Criterion>)
    ensures forall x {:trigger Matches(w, x)} :: Matches(w, x) <==> OnOrAfter(x, col, bound)
  {
    if bound.Some? then MatchesSingle(AtLeast(col, Time(bound.value))); [AtLeast(col, Time(bound.value))] else []
  }

  /** The upper date bound a repository adds when one is given. */
  function Until(col: ColumnName, bound: Option<int>): (w: seq<Criterion>)
    ensures forall x {:trigger Matches(w, x)} :: Matches(w, x) <==> OnOrBefore(x, col, bound)
  {
    if bound.Some? then MatchesSingle(AtMost(col, Time(bound.value))); [AtMost(col, Time(bound.value))] else []
  }

  /** An equality on an integer argument, added only when the argument is truthy. */
  function IntIfGiven(col: ColumnName, arg: Option<int>): (w: seq<Criterion>)
    ensures forall x {:trigger Matches(w, x)} :: Matches(w, x) <==> (GivenInt(arg) ==> Field(x, col) == Int(arg.value))
  {
    if GivenInt(arg) then MatchesSingle(Equals(col, Int(arg.value))); [Equals(col, Int(arg.value))] else []
  }

  /** An equality on a string argument, added only when the argument is truthy. */
  function TextIfGiven(col: ColumnName, arg: Option<string>): (w: seq<Criterion>)
    ensures forall x {:trigger Matches(w, x)} :: Matches(w, x) <==> (GivenText(arg) ==> Field(x, col) == Text(arg.value))
  {
    if GivenText(arg) then MatchesSingle(Equals(col, Text(arg.value))); [Equals(col, Text(arg.value))] else []
  }

  /** An equality added whenever the argument is not None (so 0 counts). */
  function IntIfNotNone(col: ColumnName, arg: Option<int>): (w: seq<Criterion>)
    ensures forall x {:trigger Matches(w, x)} :: Matches(w, x) <==> (arg.Some? ==> Field(x, col) == Int(arg.value))
  {
    if arg.Some? then MatchesSingle(Equals(col, Int(arg.value))); [Equals(col, Int(arg.value))] else []
  }

  /** A lower bound on a float column, added when `cond` holds. */
  function RealAtLeastIf(cond: bool, col: ColumnName, bound: real): (w: seq<Criterion>)
    ensures forall x {:trigger Matches(w, x)} :: Matches(w, x) <==> (cond ==> Field(x, col).Real? && bound <= Field(x, col).x)
  {
    if cond then MatchesSingle(AtLeast(col, Real(bound))); [AtLeast(col, Real(bound))] else []
  }

  /** An unconditional `col == v`. */
  function Is(col: ColumnName, v: Value): (w: seq<Criterion>)
    ensures forall x {:trigger Matches(w, x)} :: Matches(w, x) <==> Field(x, col) == v
  {
    MatchesSingle(Equals(col, v)); [Equals(col, v)]
  }

  /** An unconditional `col >= v`. */
  function AtLeastValue(col: ColumnName, v: Value): (w: seq<Criterion>)
    ensures forall x {:trigger Matches(w, x)} :: Matches(w, x) <==> ValueLe(v, Field(x, col))
  {
    MatchesSingle(AtLeast(col, v)); [AtLeast(col, v)]
  }

  // ---------------------------------------------------------------------------
  // What a sorted result looks like

  predicate KeyLe(a: Key, b: Key) { a == b || KeyLt(a, b) }

  /** Non-decreasing in the column, NULLs last. */
  predicate Ascending(col: ColumnName, s: seq<Row>) {
    forall i, j :: 0 <= i < j < |s| ==> KeyLe(KeyOf(Field(s[i], col)), KeyOf(Field(s[j], col)))
  }

  /** Non-increasing in the column, NULLs first. */
  predicate Descending(col: ColumnName, s: seq<Row>) {
    forall i, j :: 0 <= i < j < |s| ==> KeyLe(KeyOf(Field(s[j], col)), KeyOf(Field(s[i], col)))
  }

  lemma SortedAscending(col: ColumnName, s: seq<Row>)
    requires Sorted([OrderKey(col, Asc)], s)
    ensures Ascending(col, s)
  {
    forall i, j | 0 <= i < j < |s| ensures KeyLe(KeyOf(Field(s[i], col)), KeyOf(Field(s[j], col))) {
      assert RowLe([OrderKey(col, Asc)], s[i], s[j]);
    }
  }

  lemma SortedDescending(col: ColumnName, s: seq<Row>)
    requires Sorted([OrderKey(col, Desc)], s)
    ensures Descending(col, s)
  {
    forall i, j | 0 <= i < j < |s| ensures KeyLe(KeyOf(Field(s[j], col)), KeyOf(Field(s[i], col))) {
      assert RowLe([OrderKey(col, Desc)], s[i], s[j]);
    }
  }

  /** Ordered by `first` descending, and by `second` descending among rows
      equal in `first`. */
  lemma SortedDescendingThen(first: ColumnName, second: ColumnName, s: seq<Row>)
    requires Sorted([OrderKey(first, Desc), OrderKey(second, Desc)], s)
    ensures Descending(first, s)
    ensures forall i, j :: 0 <= i < j < |s| && KeyOf(Field(s[i], first)) == KeyOf(Field(s[j], first)) ==>
      KeyLe(KeyOf(Field(s[j], second)), KeyOf(Field(s[i], second)))
  {
    var order := [OrderKey(first, Desc), OrderKey(second, Desc)];
    forall i, j | 0 <= i < j < |s|
      ensures KeyLe(KeyOf(Field(s[j], first)), KeyOf(Field(s[i], first)))
      ensures KeyOf(Field(s[i], first)) == KeyOf(Field(s[j], first)) ==>
        KeyLe(KeyOf(Field(s[j], second)), KeyOf(Field(s[i], second)))
    {
      assert RowLe(order, s[i], s[j]);
      if KeyOf(Field(s[i], first)) == KeyOf(Field(s[j], first)) {
        assert order[1..] == [OrderKey(second, Desc)];
        assert RowLe([OrderKey(second, Desc)], s[i], s[j]);
      }
    }
  }
}

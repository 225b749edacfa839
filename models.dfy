/**
 * The entity model: stored values, column declarations, the base columns every
 * table shares (id, created_at, updated_at), the six table declarations with
 * their NOT NULL columns, defaults and unique indexes, and `to_dict`.
 */
module Models {
  import opened Wrappers

  /** A stored column value. Dates and timestamps are day numbers, floats are
      reals (they are only ever compared), JSON documents are opaque text. */
  datatype Value =
    | Null
    | Int(i: int)
    | Real(x: real)
    | Text(s: string)
    | Bool(b: bool)
    | Time(t: int)
    | Json(doc: string)

  /** A column type. A string column has a maximum length (`String(n)`) or
      none (`Text`). */
  datatype ColumnType = IntType | RealType | TextType(maxLength: Option<nat>) | BoolType | TimeType | JsonType

  /** `String(n)` */
  function Varchar(n: nat): ColumnType { TextType(Some(n)) }

  /** `Text` */
  const UnboundedText: ColumnType := TextType(None)

  /** A value is of a column's kind; NULL is of every kind (nullability is
      separate), and the length of a string is checked apart. */
  predicate HasType(v: Value, ty: ColumnType) {
    match v
    case Null => true
    case Int(_) => ty == IntType
    case Real(_) => ty == RealType
    case Text(_) => ty.TextType?
    case Bool(_) => ty == BoolType
    case Time(_) => ty == TimeType
    case Json(_) => ty == JsonType
  }

  /** A string is no longer than its column allows. */
  predicate FitsLength(v: Value, ty: ColumnType) {
    v.Text? && ty.TextType? && ty.maxLength.Some? ==> |v.s| <= ty.maxLength.value
  }

  /** The column names of all tables; the first three are the base columns. */
  datatype ColumnName = Column(index: nat)
  const Id: ColumnName := Column(0)
  const CreatedAt: ColumnName := Column(1)
  const UpdatedAt: ColumnName := Column(2)
  const Ticker: ColumnName := Column(3)
  const Name: ColumnName := Column(4)
  const Sector: ColumnName := Column(5)
  const Industry: ColumnName := Column(6)
  const CompanyId: ColumnName := Column(7)
  const Date: ColumnName := Column(8)
  const Title: ColumnName := Column(9)
  const Content: ColumnName := Column(10)
  const Source: ColumnName := Column(11)
  const Url: ColumnName := Column(12)
  const PrimaryCategory: ColumnName := Column(13)
  const SubCategories: ColumnName := Column(14)
  const SentimentScore: ColumnName := Column(15)
  const Entities: ColumnName := Column(16)
  const Processed: ColumnName := Column(17)
  const Open: ColumnName := Column(18)
  const High: ColumnName := Column(19)
  const Low: ColumnName := Column(20)
  const Close: ColumnName := Column(21)
  const AdjustedClose: ColumnName := Column(22)
  const Volume: ColumnName := Column(23)
  const Period: ColumnName := Column(24)
  const FiscalYear: ColumnName := Column(25)
  const FiscalQuarter: ColumnName := Column(26)
  const ReportDate: ColumnName := Column(27)
  const Revenue: ColumnName := Column(28)
  const NetIncome: ColumnName := Column(29)
  const Eps: ColumnName := Column(30)
  const TotalAssets: ColumnName := Column(31)
  const TotalLiabilities: ColumnName := Column(32)
  const TotalEquity: ColumnName := Column(33)
  const IncomeStatementData: ColumnName := Column(34)
  const BalanceSheetData: ColumnName := Column(35)
  const CashFlowData: ColumnName := Column(36)
  const SignalType: ColumnName := Column(37)
  const Direction: ColumnName := Column(38)
  const Strength: ColumnName := Column(39)
  const Confidence: ColumnName := Column(40)
  const Reason: ColumnName := Column(41)
  const SourceAnnouncementId: ColumnName := Column(42)
  const SourceDetails: ColumnName := Column(43)
  const Description: ColumnName := Column(44)
  const StrategyType: ColumnName := Column(45)
  const Parameters: ColumnName := Column(46)
  const StartDate: ColumnName := Column(47)
  const EndDate: ColumnName := Column(48)
  const TotalReturn: ColumnName := Column(49)
  const AnnualizedReturn: ColumnName := Column(50)
  const SharpeRatio: ColumnName := Column(51)
  const MaxDrawdown: ColumnName := Column(52)
  const WinRate: ColumnName := Column(53)
  const TradesCount: ColumnName := Column(54)
  const Trades: ColumnName := Column(55)
  const EquityCurve: ColumnName := Column(56)
  const CreatedBy: ColumnName := Column(57)

  /** The columns declared on the shared base class. */
  const BaseColumns: set<ColumnName> := {Id, CreatedAt, UpdatedAt}

  /** One column declaration: its type, whether NULL is allowed, and the value
      stored when an insert does not set the column. */
  datatype ColumnSpec = ColumnSpec(ty: ColumnType, nullable: bool, default: Value)

  /** A table declaration: its own columns (the base columns are implicit) and
      its unique indexes, each a list of columns. */
  datatype TableSchema = TableSchema(columns: map<ColumnName, ColumnSpec>, uniqueKeys: seq<seq<ColumnName>>)

  /** Values of some columns of one record; also a create or update payload. */
  type Record = map<ColumnName, Value>

  /** A stored row: its primary key, its two timestamps, and the table's own
      columns. */
  datatype Row = Row(id: int, createdAt: Value, updatedAt: Value, cols: Record)

  /** The value of any column of a row, base columns included; an absent
      column reads as NULL. */
  function Field(r: Row, c: ColumnName): Value {
    if c == Id then Int(r.id)
    else if c == CreatedAt then r.createdAt
    else if c == UpdatedAt then r.updatedAt
    else if c in r.cols then r.cols[c]
    else Null
  }

  /** The declarations of the base columns: an integer primary key, and two
      nullable timestamps. */
  const BaseSpecs: map<ColumnName, ColumnSpec> :=
    map[Id := Required(IntType), CreatedAt := Nullable(TimeType), UpdatedAt := Nullable(TimeType)]

  /** The timestamps of a row are timestamps or NULL. */
  predicate BaseTyped(r: Row) {
    HasType(r.createdAt, TimeType) && HasType(r.updatedAt, TimeType)
  }

  /** The value of a column of a payload; an absent one reads as None, as a
      request schema's optional field does. */
  function PayloadField(p: Record, c: ColumnName): Value {
    if c in p then p[c] else Null
  }

  function Required(ty: ColumnType): ColumnSpec { ColumnSpec(ty, false, Null) }
  function Nullable(ty: ColumnType): ColumnSpec { ColumnSpec(ty, true, Null) }

  /** Every value names a column and is of its kind (otherwise the database
      raises a data error). */
  predicate WellTyped(schema: TableSchema, rec: Record) {
    forall c :: c in rec ==> c in schema.columns && HasType(rec[c], schema.columns[c].ty)
  }

  /** Every string fits its column (otherwise the database raises a data error). */
  predicate WithinLengths(schema: TableSchema, rec: Record) {
    forall c :: c in rec && c in schema.columns ==> FitsLength(rec[c], schema.columns[c].ty)
  }

  /** Every NOT NULL column holds a value (otherwise the database raises an integrity error). */
  predicate NonNull(schema: TableSchema, rec: Record) {
    forall c :: c in schema.columns && !schema.columns[c].nullable ==> c in rec && rec[c] != Null
  }

  /** A record that the table can store. */
  predicate Conforms(schema: TableSchema, rec: Record) {
    rec.Keys == schema.columns.Keys && WellTyped(schema, rec) && WithinLengths(schema, rec) && NonNull(schema, rec)
  }

  /** Two records collide on a unique index. As in SQL, NULL equals nothing,
      so a key with a NULL column never collides. */
  predicate ClashOn(key: seq<ColumnName>, a: Record, b: Record) {
    |key| > 0 && forall c :: c in key ==> c in a && c in b && a[c] != Null && a[c] == b[c]
  }

  predicate Clashes(schema: TableSchema, a: Record, b: Record) {
    exists key :: key in schema.uniqueKeys && ClashOn(key, a, b)
  }

  /** The storage invariant of one table: every row fits the declaration, no
      two rows share an id, and no two rows collide on a unique index. */
  predicate RowsValid(schema: TableSchema, rows: seq<Row>) {
    && (forall r :: r in rows ==> Conforms(schema, r.cols) && BaseTyped(r))
    && (forall i, j :: 0 <= i < j < |rows| ==> rows[i].id != rows[j].id)
    && (forall i, j :: 0 <= i < j < |rows| ==> !Clashes(schema, rows[i].cols, rows[j].cols))
  }

  /** The record an ORM insert stores for keyword arguments: each column
      takes the payload's value if it is not None, its default otherwise (the
      ORM leaves a None attribute out of the INSERT). */
  function Materialize(schema: TableSchema, payload: Record): Record {
    map c | c in schema.columns :: if PayloadField(payload, c) != Null then payload[c] else schema.columns[c].default
  }

  /** A declaration the rest of the model relies on: no base column is
      redeclared, every unique index is over declared columns. */
  predicate WellFormed(schema: TableSchema) {
    && BaseColumns !! schema.columns.Keys
    && (forall key :: key in schema.uniqueKeys ==> forall c :: c in key ==> c in schema.columns)
  }

  const MissingMetadata: string := "Table metadata is missing. Ensure Base.metadata.create_all() is called."

  /** `to_dict`: the map from every column of the table, base columns
      included, to the row's value; it fails when there is no table metadata. */
  function ToDict(meta: Option<TableSchema>, r: Row): (d: Result<Record, string>)
    ensures meta.None? <==> d.Failure?
    ensures d.Failure? ==> d.error == MissingMetadata
    ensures d.Success? ==> d.value.Keys == BaseColumns + meta.value.columns.Keys
    ensures d.Success? ==> forall c :: c in d.value ==> d.value[c] == Field(r, c)
  {
    match meta
    case None => Failure(MissingMetadata)
    case Some(schema) => Success(map c | c in BaseColumns + schema.columns.Keys :: Field(r, c))
  }

  /** Reads a row back from its dictionary form. */
  function FromDict(d: Record): Row {
    Row(
      if Id in d && d[Id].Int? then d[Id].i else 0,
      if CreatedAt in d then d[CreatedAt] else Null,
      if UpdatedAt in d then d[UpdatedAt] else Null,
      d - BaseColumns)
  }

  /** `to_dict` loses nothing: the row can be read back from it. */
  lemma ToDictRoundTrip(schema: TableSchema, r: Row)
    requires WellFormed(schema) && r.cols.Keys == schema.columns.Keys
    ensures ToDict(Some(schema), r).Success?
    ensures FromDict(ToDict(Some(schema), r).value) == r
  {
    var d := ToDict(Some(schema), r).value;
    assert d[Id] == Int(r.id) && d[CreatedAt] == r.createdAt && d[UpdatedAt] == r.updatedAt;
    forall c | c in r.cols ensures c in d - BaseColumns && (d - BaseColumns)[c] == r.cols[c] {
      assert c !in BaseColumns;
    }
    assert d - BaseColumns == r.cols;
  }

  // ---------------------------------------------------------------------------
  // The six tables

  const CompanyTable: TableSchema := TableSchema(
    map[
      Ticker := Required(Varchar(10)),
      Name := Required(Varchar(255)),
      Sector := Nullable(Varchar(100)),
      Industry := Nullable(Varchar(100))],
    [[Ticker]])

  const AnnouncementTable: TableSchema := TableSchema(
    map[
      CompanyId := Required(IntType),
      Date := Required(TimeType),
      Title := Required(Varchar(255)),
      Content := Nullable(UnboundedText),
      Source := Nullable(Varchar(100)),
      Url := Nullable(Varchar(500)),
      PrimaryCategory := Nullable(Varchar(50)),
      SubCategories := Nullable(JsonType),
      SentimentScore := Nullable(RealType),
      Entities := Nullable(JsonType),
      Processed := ColumnSpec(BoolType, true, Bool(false))],
    [])

  const PriceDataTable: TableSchema := TableSchema(
    map[
      CompanyId := Required(IntType),
      Date := Required(TimeType),
      Open := Nullable(RealType),
      High := Nullable(RealType),
      Low := Nullable(RealType),
      Close := Nullable(RealType),
      AdjustedClose := Nullable(RealType),
      Volume := Nullable(RealType)],
    [[CompanyId, Date]])

  const FundamentalDataTable: TableSchema := TableSchema(
    map[
      CompanyId := Required(IntType),
      Period := Required(Varchar(10)),
      FiscalYear := Required(IntType),
      FiscalQuarter := Nullable(IntType),
      ReportDate := Required(TimeType),
      Revenue := Nullable(RealType),
      NetIncome := Nullable(RealType),
      Eps := Nullable(RealType),
      TotalAssets := Nullable(RealType),
      TotalLiabilities := Nullable(RealType),
      TotalEquity := Nullable(RealType),
      IncomeStatementData := Nullable(JsonType),
      BalanceSheetData := Nullable(JsonType),
      CashFlowData := Nullable(JsonType)],
    [[CompanyId, Period, FiscalYear, FiscalQuarter]])

  const SignalTable: TableSchema := TableSchema(
    map[
      CompanyId := Required(IntType),
      Date := Required(TimeType),
      SignalType := Required(Varchar(50)),
      Direction := Required(IntType),
      Strength := Required(RealType),
      Confidence := Required(RealType),
      Reason := Nullable(UnboundedText),
      SourceAnnouncementId := Nullable(IntType),
      SourceDetails := Nullable(JsonType)],
    [])

  const BacktestTable: TableSchema := TableSchema(
    map[
      Name := Required(Varchar(100)),
      Description := Nullable(UnboundedText),
      StrategyType := Required(Varchar(50)),
      Parameters := Required(JsonType),
      StartDate := Required(TimeType),
      EndDate := Required(TimeType),
      TotalReturn := Nullable(RealType),
      AnnualizedReturn := Nullable(RealType),
      SharpeRatio := Nullable(RealType),
      MaxDrawdown := Nullable(RealType),
      WinRate := Nullable(RealType),
      TradesCount := Nullable(IntType),
      Trades := Nullable(JsonType),
      EquityCurve := Nullable(JsonType),
      CreatedBy := Nullable(Varchar(100))],
    [])

  // ---------------------------------------------------------------------------
  // What the declarations guarantee of every stored row

  /** A NOT NULL column of a valid table holds a value of its type in every row. */
  lemma RequiredColumn(schema: TableSchema, rows: seq<Row>, c: ColumnName)
    requires RowsValid(schema, rows)
    requires c in schema.columns && c !in BaseColumns && !schema.columns[c].nullable
    ensures forall r :: r in rows ==> Field(r, c) != Null && HasType(Field(r, c), schema.columns[c].ty)
  {
    forall r | r in rows ensures Field(r, c) != Null && HasType(Field(r, c), schema.columns[c].ty) {
      assert Conforms(schema, r.cols);
      assert c in r.cols && Field(r, c) == r.cols[c];
    }
  }

  /** The unique index `key` separates rows i and j of a valid table. */
  lemma UniqueKeySeparates(schema: TableSchema, rows: seq<Row>, key: seq<ColumnName>, i: int, j: int)
    requires RowsValid(schema, rows) && key in schema.uniqueKeys && 0 <= i < j < |rows|
    ensures !ClashOn(key, rows[i].cols, rows[j].cols)
  {
  }

  /** A conforming record holds a value of each declared column's type, and
      not NULL where the column is NOT NULL. */
  lemma ColumnPresent(schema: TableSchema, rec: Record, c: ColumnName, spec: ColumnSpec)
    requires Conforms(schema, rec) && c in schema.columns && schema.columns[c] == spec
    ensures c in rec && HasType(rec[c], spec.ty) && FitsLength(rec[c], spec.ty) && (!spec.nullable ==> rec[c] != Null)
  {
  }

  /** A stored company has a ticker of at most 10 characters and a name of
      at most 255. */
  lemma CompanyRowTyped(rec: Record)
    requires Conforms(CompanyTable, rec)
    ensures Ticker in rec && rec[Ticker].Text? && |rec[Ticker].s| <= 10
    ensures Name in rec && rec[Name].Text? && |rec[Name].s| <= 255
  {
    ColumnPresent(CompanyTable, rec, Ticker, Required(Varchar(10)));
    ColumnPresent(CompanyTable, rec, Name, Required(Varchar(255)));
  }

  /** No two companies share a ticker. */
  lemma CompanyTickerUnique(rows: seq<Row>, i: int, j: int)
    requires RowsValid(CompanyTable, rows) && 0 <= i < j < |rows|
    ensures Field(rows[i], Ticker) != Field(rows[j], Ticker)
  {
    UniqueKeySeparates(CompanyTable, rows, [Ticker], i, j);
    assert rows[i] in rows && rows[j] in rows;
    CompanyRowTyped(rows[i].cols);
    CompanyRowTyped(rows[j].cols);
    assert Ticker in [Ticker];
  }

  /** A stored price bar names its company and its day. */
  lemma PriceDataRowTyped(rec: Record)
    requires Conforms(PriceDataTable, rec)
    ensures CompanyId in rec && rec[CompanyId].Int? && Date in rec && rec[Date].Time?
  {
    ColumnPresent(PriceDataTable, rec, CompanyId, Required(IntType));
    ColumnPresent(PriceDataTable, rec, Date, Required(TimeType));
  }

  /** No two price rows share (company_id, date). */
  lemma PriceDataKeyUnique(rows: seq<Row>, i: int, j: int)
    requires RowsValid(PriceDataTable, rows) && 0 <= i < j < |rows|
    ensures Field(rows[i], CompanyId) != Field(rows[j], CompanyId) || Field(rows[i], Date) != Field(rows[j], Date)
  {
    var key := [CompanyId, Date];
    UniqueKeySeparates(PriceDataTable, rows, key, i, j);
    assert rows[i] in rows && rows[j] in rows;
    PriceDataRowTyped(rows[i].cols);
    PriceDataRowTyped(rows[j].cols);
  }

  /** Two price records collide on the unique index exactly when both name
      the same company and the same day. */
  lemma PriceDataClash(a: Record, b: Record)
    ensures Clashes(PriceDataTable, a, b) <==>
      && CompanyId in a && CompanyId in b && a[CompanyId] != Null && a[CompanyId] == b[CompanyId]
      && Date in a && Date in b && a[Date] != Null && a[Date] == b[Date]
  {
    var key := [CompanyId, Date];
    assert PriceDataTable.uniqueKeys == [key];
    if Clashes(PriceDataTable, a, b) {
      var k :| k in PriceDataTable.uniqueKeys && ClashOn(k, a, b);
      assert k == key && key[0] == CompanyId && key[1] == Date;
    }
    if && CompanyId in a && CompanyId in b && a[CompanyId] != Null && a[CompanyId] == b[CompanyId]
       && Date in a && Date in b && a[Date] != Null && a[Date] == b[Date] {
      assert ClashOn(key, a, b);
      assert key in PriceDataTable.uniqueKeys;
    }
  }

  /** Of price_data's columns only company_id and date are NOT NULL, and
      none has a default. */
  lemma PriceDataDeclared(c: ColumnName)
    requires c in PriceDataTable.columns
    ensures PriceDataTable.columns[c].default == Null
    ensures !PriceDataTable.columns[c].nullable ==> c == CompanyId || c == Date
  {
  }

  /** A stored fundamental record names its company, period, fiscal year and
      report date; only the quarter of the key may be NULL. */
  lemma FundamentalRowTyped(rec: Record)
    requires Conforms(FundamentalDataTable, rec)
    ensures CompanyId in rec && rec[CompanyId].Int? && Period in rec && rec[Period].Text? && |rec[Period].s| <= 10
    ensures FiscalYear in rec && rec[FiscalYear].Int? && ReportDate in rec && rec[ReportDate].Time?
    ensures FiscalQuarter in rec && (rec[FiscalQuarter].Null? || rec[FiscalQuarter].Int?)
  {
    ColumnPresent(FundamentalDataTable, rec, CompanyId, Required(IntType));
    ColumnPresent(FundamentalDataTable, rec, Period, Required(Varchar(10)));
    ColumnPresent(FundamentalDataTable, rec, FiscalYear, Required(IntType));
    ColumnPresent(FundamentalDataTable, rec, ReportDate, Required(TimeType));
    ColumnPresent(FundamentalDataTable, rec, FiscalQuarter, Nullable(IntType));
  }

  /** No two fundamental rows with a fiscal quarter share (company_id, period,
      fiscal_year, fiscal_quarter); rows whose quarter is NULL are not
      constrained by the index, as SQL treats NULLs as distinct. */
  lemma FundamentalDataKeyUnique(rows: seq<Row>, i: int, j: int)
    requires RowsValid(FundamentalDataTable, rows)
    requires 0 <= i < j < |rows| && Field(rows[i], FiscalQuarter) != Null
    ensures
      || Field(rows[i], CompanyId) != Field(rows[j], CompanyId)
      || Field(rows[i], Period) != Field(rows[j], Period)
      || Field(rows[i], FiscalYear) != Field(rows[j], FiscalYear)
      || Field(rows[i], FiscalQuarter) != Field(rows[j], FiscalQuarter)
  {
    UniqueKeySeparates(FundamentalDataTable, rows, [CompanyId, Period, FiscalYear, FiscalQuarter], i, j);
    assert rows[i] in rows && rows[j] in rows;
    FundamentalRowTyped(rows[i].cols);
    FundamentalRowTyped(rows[j].cols);
    FundamentalRowsDiffer(rows[i], rows[j]);
  }

  lemma FundamentalRowsDiffer(a: Row, b: Row)
    requires !ClashOn([CompanyId, Period, FiscalYear, FiscalQuarter], a.cols, b.cols)
    requires CompanyId in a.cols && Period in a.cols && FiscalYear in a.cols && FiscalQuarter in a.cols
    requires CompanyId in b.cols && Period in b.cols && FiscalYear in b.cols && FiscalQuarter in b.cols
    requires a.cols[CompanyId] != Null && a.cols[Period] != Null && a.cols[FiscalYear] != Null
    requires a.cols[FiscalQuarter] != Null
    ensures
      || Field(a, CompanyId) != Field(b, CompanyId)
      || Field(a, Period) != Field(b, Period)
      || Field(a, FiscalYear) != Field(b, FiscalYear)
      || Field(a, FiscalQuarter) != Field(b, FiscalQuarter)
  {
    var key := [CompanyId, Period, FiscalYear, FiscalQuarter];
    var c :| c in key && !(c in a.cols && c in b.cols && a.cols[c] != Null && a.cols[c] == b.cols[c]);
    assert Field(a, c) != Field(b, c);
  }

  /** The quarter is the one nullable column of the fundamentals key. */
  lemma FundamentalQuarterDeclared()
    ensures FiscalQuarter in FundamentalDataTable.columns
    ensures FundamentalDataTable.columns[FiscalQuarter] == Nullable(IntType)
  {
  }

  /** A fundamental record whose quarter is NULL never collides on the
      unique index, whatever the other row holds. */
  lemma FundamentalNullQuarterNeverClashes(a: Record, b: Record)
    requires FiscalQuarter in a && a[FiscalQuarter] == Null
    ensures !Clashes(FundamentalDataTable, a, b)
  {
    var key := [CompanyId, Period, FiscalYear, FiscalQuarter];
    assert FundamentalDataTable.uniqueKeys == [key];
    assert FiscalQuarter in key;
  }

  /** A stored announcement names its company, its day and its title. */
  lemma AnnouncementRowTyped(rec: Record)
    requires Conforms(AnnouncementTable, rec)
    ensures CompanyId in rec && rec[CompanyId].Int? && Date in rec && rec[Date].Time?
    ensures Title in rec && rec[Title].Text? && |rec[Title].s| <= 255
  {
    ColumnPresent(AnnouncementTable, rec, CompanyId, Required(IntType));
    ColumnPresent(AnnouncementTable, rec, Date, Required(TimeType));
    ColumnPresent(AnnouncementTable, rec, Title, Required(Varchar(255)));
  }

  /** A stored signal has every column the trading logic reads. */
  lemma SignalRowTyped(rec: Record)
    requires Conforms(SignalTable, rec)
    ensures && CompanyId in rec && rec[CompanyId].Int? && Date in rec && rec[Date].Time?
      && SignalType in rec && rec[SignalType].Text? && |rec[SignalType].s| <= 50 && Direction in rec && rec[Direction].Int?
      && Strength in rec && rec[Strength].Real? && Confidence in rec && rec[Confidence].Real?
  {
    ColumnPresent(SignalTable, rec, CompanyId, Required(IntType));
    ColumnPresent(SignalTable, rec, Date, Required(TimeType));
    ColumnPresent(SignalTable, rec, SignalType, Required(Varchar(50)));
    ColumnPresent(SignalTable, rec, Direction, Required(IntType));
    ColumnPresent(SignalTable, rec, Strength, Required(RealType));
    ColumnPresent(SignalTable, rec, Confidence, Required(RealType));
  }

  /** A stored backtest has a name, a strategy, its parameters and its period. */
  lemma BacktestRowTyped(rec: Record)
    requires Conforms(BacktestTable, rec)
    ensures && Name in rec && rec[Name].Text? && |rec[Name].s| <= 100
      && StrategyType in rec && rec[StrategyType].Text? && |rec[StrategyType].s| <= 50
      && Parameters in rec && rec[Parameters].Json? && StartDate in rec && rec[StartDate].Time?
      && EndDate in rec && rec[EndDate].Time?
  {
    ColumnPresent(BacktestTable, rec, Name, Required(Varchar(100)));
    ColumnPresent(BacktestTable, rec, StrategyType, Required(Varchar(50)));
    ColumnPresent(BacktestTable, rec, Parameters, Required(JsonType));
    ColumnPresent(BacktestTable, rec, StartDate, Required(TimeType));
    ColumnPresent(BacktestTable, rec, EndDate, Required(TimeType));
  }

  /** A new announcement is unprocessed unless the payload gives a value. */
  lemma AnnouncementProcessedDefault(payload: Record)
    ensures Materialize(AnnouncementTable, payload)[Processed] ==
      if PayloadField(payload, Processed) != Null then payload[Processed] else Bool(false)
  {
  }

  /** Of the signal columns, company_id, date, signal_type, direction,
      strength and confidence are NOT NULL; none has a default. */
  lemma SignalDeclared(c: ColumnName)
    requires c in SignalTable.columns
    ensures SignalTable.columns[c].default == Null
    ensures !SignalTable.columns[c].nullable ==>
      c in {CompanyId, Date, SignalType, Direction, Strength, Confidence}
  {
  }

  /** The signal table declares no unique index, so any two signals may be
      equal in every column. */
  lemma SignalsMayRepeat(a: Record, b: Record)
    ensures !Clashes(SignalTable, a, b)
  {
  }

  /** The documented domains of a signal (direction in {-1, 0, 1}, strength
      and confidence in [0, 1]) are not enforced: a stored signal may hold any
      direction and any confidence. */
  lemma SignalDomainsNotEnforced(rec: Record, direction: int, confidence: real)
    requires Conforms(SignalTable, rec)
    ensures Conforms(SignalTable, rec[Direction := Int(direction)][Confidence := Real(confidence)])
  {
    var rec' := rec[Direction := Int(direction)][Confidence := Real(confidence)];
    assert rec'.Keys == rec.Keys;
  }

  // ---------------------------------------------------------------------------
  // Defaults and indexes as inserts see them

  /** Every column default is of the column's type and fits it. */
  predicate DefaultsTyped(schema: TableSchema) {
    forall c :: c in schema.columns ==>
      HasType(schema.columns[c].default, schema.columns[c].ty) && FitsLength(schema.columns[c].default, schema.columns[c].ty)
  }

  lemma CompanyDefaultsTyped()
    ensures DefaultsTyped(CompanyTable)
  {
    forall c | c in CompanyTable.columns ensures HasType(CompanyTable.columns[c].default, CompanyTable.columns[c].ty) && FitsLength(CompanyTable.columns[c].default, CompanyTable.columns[c].ty) {
      assert CompanyTable.columns[c].default == Null;
    }
  }

  lemma AnnouncementDefaultsTyped()
    ensures DefaultsTyped(AnnouncementTable)
  {
    forall c | c in AnnouncementTable.columns ensures HasType(AnnouncementTable.columns[c].default, AnnouncementTable.columns[c].ty) && FitsLength(AnnouncementTable.columns[c].default, AnnouncementTable.columns[c].ty) {
      if c == Processed {
        assert AnnouncementTable.columns[c] == ColumnSpec(BoolType, true, Bool(false));
      } else {
        assert AnnouncementTable.columns[c].default == Null;
      }
    }
  }

  lemma PriceDataDefaultsTyped()
    ensures DefaultsTyped(PriceDataTable)
  {
    forall c | c in PriceDataTable.columns ensures HasType(PriceDataTable.columns[c].default, PriceDataTable.columns[c].ty) && FitsLength(PriceDataTable.columns[c].default, PriceDataTable.columns[c].ty) {
      PriceDataDeclared(c);
    }
  }

  lemma FundamentalDataDefaultsTyped()
    ensures DefaultsTyped(FundamentalDataTable)
  {
    forall c | c in FundamentalDataTable.columns ensures HasType(FundamentalDataTable.columns[c].default, FundamentalDataTable.columns[c].ty) && FitsLength(FundamentalDataTable.columns[c].default, FundamentalDataTable.columns[c].ty) {
      assert FundamentalDataTable.columns[c].default == Null;
    }
  }

  lemma SignalDefaultsTyped()
    ensures DefaultsTyped(SignalTable)
  {
    forall c | c in SignalTable.columns ensures HasType(SignalTable.columns[c].default, SignalTable.columns[c].ty) && FitsLength(SignalTable.columns[c].default, SignalTable.columns[c].ty) {
      SignalDeclared(c);
    }
  }

  lemma BacktestDefaultsTyped()
    ensures DefaultsTyped(BacktestTable)
  {
    forall c | c in BacktestTable.columns ensures HasType(BacktestTable.columns[c].default, BacktestTable.columns[c].ty) && FitsLength(BacktestTable.columns[c].default, BacktestTable.columns[c].ty) {
      assert BacktestTable.columns[c].default == Null;
    }
  }

  /** With a single unique index, two records collide exactly when they
      collide on that index. */
  lemma SingleIndexClash(schema: TableSchema, a: Record, b: Record)
    requires |schema.uniqueKeys| == 1
    ensures Clashes(schema, a, b) <==> ClashOn(schema.uniqueKeys[0], a, b)
  {
    if ClashOn(schema.uniqueKeys[0], a, b) {
      assert schema.uniqueKeys[0] in schema.uniqueKeys;
    }
  }
}

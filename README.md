# Stock alpha platform: storage and API core

This project models the data layer and HTTP endpoints of the stock alpha
platform in Dafny. The data layer covers:

- the SQLAlchemy entity declarations (companies, announcements, daily price
  bars, fundamental reports, trading signals and backtests), with their NOT
  NULL columns, defaults and unique indexes;
- the generic repository (`get`, `get_multi`, `create`, `update`, `remove`);
- the six entity repositories with their filtered, ordered and paged
  queries and their batch inserts;
- the repository registry.

On top of that sit the FastAPI endpoints for companies, market data,
fundamentals, signals, announcements and backtests.

A table is a sequence of rows in storage order. A row has typed base columns
(`id`, `created_at`, `updated_at`) and a map from the table's own columns to
values.

**Queries.** They are modelled by `Query.Run`:
- select the rows that match every condition;
- sort them stably by the ORDER BY list, with NULL sorting after every value
  as in PostgreSQL;
- skip `offset` rows and keep at most `limit`.

**Storing data.** Inserting checks what the database would check:
- the column types, and the length of every `String(n)` value;
- the NOT NULL columns;
- the primary key: the row takes the next value of the id sequence, and an
  id already stored is refused;
- every unique index, under SQL semantics (NULL equals nothing).

A payload value of None counts as not given, so the column default applies,
as with an ORM insert. A refused insert leaves the rows untouched and yields
`DataError` (a wrong type, an overlong string) or `IntegrityError`. Like a
PostgreSQL sequence, a single insert refused with an integrity error still
uses up its id.

**Mutable state.** The mutable parts are Dafny classes:
- a table (`BaseRepository.Table`), whose methods keep `Valid()`: rows
  conform, ids are unique, and no unique index is violated. They also keep
  `IdsBelow`, the id sequence being past every stored id, whenever it held
  before. Only then is every create of a fitting payload accepted; an update
  that sets the id can break it;
- the registry's instance cache (`Registry.Registry`).

Endpoint handlers that read are functions over the tables' rows. Handlers
that write are methods over `Table` objects.

**Answers.** Handlers answer with `Http.Response`:
- `Ok(body)`;
- `Rejected(status, detail)` for an `HTTPException`;
- `Failed(error)` for a database error that propagates.

Loops that build a batch are methods whose result is proved equal to a
specification function. The properties the source promises are stated about
those functions: what a batch keeps, and what every query returns and in
which order.

## Model

| member | source | states |
|---|---|---|
| Models.ToDict | src/stockalpha/models/base.py:23-29 | fails with the missing-metadata error exactly when the model has no table; otherwise maps every column of the table, base columns included, to the row's value |
| Models.ToDictRoundTrip | src/stockalpha/models/base.py:23-29 | the dictionary of a row loses nothing: the row is read back from it unchanged |
| Models.CompanyRowTyped | src/stockalpha/models/entities.py:22-23 | a storable company has a text ticker of at most 10 characters and a text name of at most 255 |
| Models.CompanyTickerUnique | src/stockalpha/models/entities.py:22 | no two stored companies share a ticker |
| Models.AnnouncementRowTyped | src/stockalpha/models/entities.py:36-38 | a storable announcement names an integer company, a date and a text title of at most 255 characters |
| Models.AnnouncementProcessedDefault | src/stockalpha/models/entities.py:55 | a new announcement's `processed` is the payload's value when it gives one other than None, otherwise false |
| Models.PriceDataRowTyped | src/stockalpha/models/entities.py:64-65 | a storable price bar names an integer company and a date |
| Models.PriceDataKeyUnique | src/stockalpha/models/entities.py:72 | no two stored bars share both company and date |
| Models.PriceDataClash | src/stockalpha/models/entities.py:72 | two bars collide on the unique index exactly when both have the same non-NULL company and the same non-NULL date |
| Models.FundamentalRowTyped | src/stockalpha/models/entities.py:81-85 | a storable report names an integer company, a text period of at most 10 characters, an integer year and a report date; its quarter is NULL or an integer |
| Models.FundamentalDataKeyUnique | src/stockalpha/models/entities.py:103-110 | two stored reports, the first with a quarter, differ in company, period, year or quarter |
| Models.FundamentalNullQuarterNeverClashes | src/stockalpha/models/entities.py:103-110 | a report with a NULL quarter never collides on the unique index, so such reports may repeat |
| Models.SignalRowTyped | src/stockalpha/models/signals.py:22-31 | a storable signal has its company, date, type of at most 50 characters, direction, strength and confidence, each of its type |
| Models.SignalDomainsNotEnforced | src/stockalpha/models/signals.py:29-31 | any integer direction and any confidence still fit the table: the commented domains are not checked |
| Models.BacktestRowTyped | src/stockalpha/models/signals.py:56-61 | a storable backtest has a text name of at most 100 characters, a text strategy type of at most 50, JSON parameters and start and end dates |
| Query.Select | src/stockalpha/repositories/announcement_repository.py:71-83 | chained filters select exactly the stored rows satisfying every condition, never more rows than stored |
| Query.SelectAll | src/stockalpha/repositories/base_repository.py:29 | a query without filters selects the whole table in storage order |
| Query.SelectNarrows | src/stockalpha/repositories/announcement_repository.py:73-83 | each added filter can only shrink the selection |
| Query.SelectTrivial | src/stockalpha/repositories/announcement_repository.py:73-83 | a filter every stored row satisfies changes nothing |
| Query.RowLeTotal | src/stockalpha/repositories/fundamental_data_repository.py:88-91 | the ORDER BY relation with NULLs last ranks any two rows |
| Query.RowLeTransitive | src/stockalpha/repositories/fundamental_data_repository.py:88-91 | the ORDER BY relation is transitive |
| Query.Insert | src/stockalpha/repositories/fundamental_data_repository.py:88-91 | inserting into the sorted prefix keeps every row and adds exactly one |
| Query.Sort | src/stockalpha/repositories/fundamental_data_repository.py:88-91 | ORDER BY permutes the selected rows |
| Query.SortSorted | src/stockalpha/repositories/fundamental_data_repository.py:88-91 | the sorted rows are in ORDER BY order |
| Query.SortUnordered | src/stockalpha/repositories/company.py:27-33 | without ORDER BY rows stay in storage order |
| Query.Page | src/stockalpha/repositories/base_repository.py:29 | `offset(skip).limit(limit)` is the slice starting at skip, of length limit or up to the end |
| Query.PageConcat | src/stockalpha/repositories/base_repository.py:29 | page n of size k followed by the next page is the page of size 2k |
| Query.Run | src/stockalpha/repositories/announcement_repository.py:85 | a query returns at most `limit` rows, each stored and matching every filter, in ORDER BY order |
| Query.RunComplete | src/stockalpha/repositories/announcement_repository.py:85 | from offset 0 with room for all, the query returns exactly the matching rows |
| Query.RunPages | src/stockalpha/repositories/announcement_repository.py:85 | two consecutive pages of n results tile the page of 2n results |
| Query.RunNarrower | src/stockalpha/repositories/announcement_repository.py:73-85 | with room for all, a query whose filters imply another's returns a sub-multiset of its rows |
| Query.RunRoomy | src/stockalpha/repositories/signal_repository.py:37 | a limit at least the table's size equals no limit |
| Query.RunUnordered | src/stockalpha/repositories/company.py:27-33 | an unordered query is the storage-order slice of the matching rows |
| Query.RunPlain | src/stockalpha/repositories/base_repository.py:29 | an unfiltered, unordered query is the storage-order slice of the table |
| Query.RunUnfiltered | src/stockalpha/api/routes/backtest.py:43 | an unfiltered query is the whole table sorted, then paged |
| Query.RunNarrows | src/stockalpha/repositories/announcement_repository.py:73-85 | adding filters never enlarges an unpaged result |
| Query.First | src/stockalpha/repositories/base_repository.py:23 | `.first()` is None exactly when nothing matches, otherwise the first match in storage order |
| Query.Since | src/stockalpha/repositories/announcement_repository.py:79-80 | the optional lower date bound admits exactly the rows dated on or after it, and every row when it is absent |
| Query.Until | src/stockalpha/repositories/announcement_repository.py:82-83 | the optional upper date bound admits exactly the rows dated on or before it |
| Query.IntIfGiven | src/stockalpha/repositories/announcement_repository.py:73-74 | an integer filter added only when its argument is truthy (not None, not 0) |
| Query.TextIfGiven | src/stockalpha/repositories/announcement_repository.py:76-77 | a string filter added only when its argument is truthy (not None, not "") |
| Query.IntIfNotNone | src/stockalpha/repositories/signal_repository.py:81-82 | an integer filter added whenever its argument is not None, so 0 filters |
| Query.RealAtLeastIf | src/stockalpha/repositories/signal_repository.py:90-91 | a float lower bound added when its condition holds |
| Query.Is | src/stockalpha/repositories/company.py:29 | an unconditional equality admits exactly the rows holding that value |
| Query.AtLeastValue | src/stockalpha/repositories/backtest_repository.py:48-49 | `col >= v` under SQL comparison: a NULL column never qualifies |
| Query.SortedAscending | src/stockalpha/repositories/price_data_repository.py:35 | rows sorted by an ascending key are non-decreasing in it, NULLs last |
| Query.SortedDescending | src/stockalpha/repositories/announcement_repository.py:85 | rows sorted by a descending key are non-increasing in it |
| Query.SortedDescendingThen | src/stockalpha/repositories/fundamental_data_repository.py:88-91 | rows sorted by two descending keys are non-increasing in the first, and in the second among ties |
| BaseRepository.Get | src/stockalpha/repositories/base_repository.py:21-23 | `get` is None exactly when no row has the id, otherwise a stored row with that id |
| BaseRepository.GetStored | src/stockalpha/repositories/base_repository.py:21-23 | ids are unique, so `get` of a stored row's id is that row |
| BaseRepository.GetMulti | src/stockalpha/repositories/base_repository.py:25-29 | `get_multi` is the storage-order slice from skip, of length limit or up to the end |
| BaseRepository.RecordError | src/stockalpha/repositories/base_repository.py:40-42 | the database refuses a record exactly when a value has the wrong type, a string is longer than its `String(n)` column, or a NOT NULL column is NULL; the first two are data errors |
| BaseRepository.InsertError | src/stockalpha/repositories/base_repository.py:40-42 | an insert is accepted exactly when the payload names only declared columns, the built record fits, and no stored row collides on a unique index |
| BaseRepository.CreateError | src/stockalpha/repositories/base_repository.py:40-42 | a create is accepted exactly when the insert is and the next id is not taken; while the id sequence is past every id, only the insert's own faults refuse it |
| BaseRepository.BatchInsert | src/stockalpha/repositories/price_data_repository.py:84-86 | a bulk insert either fails or adds one row per payload, with consecutive ids; an empty batch adds nothing |
| BaseRepository.BatchInsertValid | src/stockalpha/repositories/price_data_repository.py:84-86 | a successful bulk insert keeps the table valid |
| BaseRepository.AppendAccepted | src/stockalpha/repositories/base_repository.py:40-43 | an accepted insert keeps the table valid and the id sequence past every id |
| BaseRepository.UnindexedBatchAccepted | src/stockalpha/repositories/signal_repository.py:114-116 | a table without unique indexes accepts every batch of fitting payloads while the id sequence is past every stored id |
| BaseRepository.CreatePayloadConforms | src/stockalpha/repositories/base_repository.py:35-40 | the record built from a validated payload whose strings fit, and the column defaults, fits the table |
| BaseRepository.UnindexedCreateError | src/stockalpha/repositories/base_repository.py:40-42 | a table without unique indexes refuses a validated payload with a data error exactly when a string is too long, otherwise with an integrity error exactly when the next id is taken |
| BaseRepository.Patch | src/stockalpha/repositories/base_repository.py:62-64 | updating sets only attributes the object has, so the column set is unchanged |
| BaseRepository.PatchEmpty | src/stockalpha/repositories/base_repository.py:62-64 | an empty update changes nothing |
| BaseRepository.PatchIdempotent | src/stockalpha/repositories/base_repository.py:62-64 | applying the same update twice is applying it once |
| BaseRepository.PatchIgnoresUnknown | src/stockalpha/repositories/base_repository.py:62-64 | update keys that are not attributes of the object are ignored |
| BaseRepository.PatchCompose | src/stockalpha/repositories/base_repository.py:62-64 | two updates in a row equal one whose payload lays the second over the first |
| BaseRepository.ApplyPayload | src/stockalpha/repositories/base_repository.py:62-64 | the attribute loop computes the patched record |
| BaseRepository.UpdateError | src/stockalpha/repositories/base_repository.py:62-67 | an update is refused exactly when the new attribute values, id and timestamps included, do not fit, or collide with another row on the primary key or a unique index |
| BaseRepository.UpdatedAttributes | src/stockalpha/repositories/base_repository.py:62-68 | the written row holds every patched attribute; updated_at is the payload's when it changed it, `now` otherwise |
| BaseRepository.UpdatedConforms | src/stockalpha/repositories/base_repository.py:62-68 | the written row of accepted attribute values fits the table, base columns included |
| BaseRepository.ReplaceStored | src/stockalpha/repositories/base_repository.py:66-68 | an accepted update keeps the table valid, and `get` of the new id finds the written row |
| BaseRepository.Table.constructor | src/stockalpha/models/base.py:12 | a new table is empty and valid, and its autoincrement ids start at 1 |
| BaseRepository.Table.Create | src/stockalpha/repositories/base_repository.py:31-44 | `create` fails exactly when the insert is refused, leaving the rows as they were and consuming an id on an integrity error; otherwise it appends the built row under the next id, and `get` finds it; the id sequence stays past every id |
| BaseRepository.Table.Update | src/stockalpha/repositories/base_repository.py:46-69 | `update` sets every attribute the payload names, id and timestamps included; no write when nothing changes; a refused write leaves the rows unchanged; otherwise the row is replaced by the patched one, with updated_at refreshed unless the payload set it, and `get` finds it |
| BaseRepository.Table.Commit | src/stockalpha/repositories/base_repository.py:66-68 | `add` and `commit` of a loaded row given new attribute values: a refused write returns the database's error and leaves the rows unchanged; otherwise that row is replaced in place by the updated one, the id sequence is untouched, the table stays valid, and `get` of the new id finds it |
| BaseRepository.Table.Remove | src/stockalpha/repositories/base_repository.py:71-79 | `remove` fails with not-found and changes nothing when no row has the id; otherwise it deletes that row, returns it, and keeps every other row |
| BaseRepository.Table.InsertAll | src/stockalpha/repositories/price_data_repository.py:84-86 | `bulk_save_objects` and `commit` add all the batch's rows or none |
| BaseRepository.CreateThenGet | src/stockalpha/repositories/base_repository.py:21-44 | after a create, `get` of the new id is the new row and `get` of every older id is unchanged |
| CompanyRepository.GetByTicker | src/stockalpha/repositories/company.py:19-21 | None exactly when no company has the ticker, otherwise a company with it |
| CompanyRepository.GetByTickerStored | src/stockalpha/repositories/company.py:19-21 | tickers are unique, so the lookup of a stored company's ticker finds that company |
| CompanyRepository.CreatedFoundByTicker | src/stockalpha/repositories/company.py:19-21 | a company just stored is what the lookup by its ticker finds |
| CompanyRepository.GetBySector | src/stockalpha/repositories/company.py:23-33 | at most limit companies, each stored and of exactly that sector |
| CompanyRepository.GetBySectorStorageOrder | src/stockalpha/repositories/company.py:23-33 | the listing is the storage-order slice of the sector's companies |
| CompanyRepository.GetBySectorComplete | src/stockalpha/repositories/company.py:23-33 | with room for all, every company of the sector is listed |
| CompanyRepository.GetByIndustry | src/stockalpha/repositories/company.py:35-45 | at most limit companies, each stored and of exactly that industry |
| CompanyRepository.GetByIndustryStorageOrder | src/stockalpha/repositories/company.py:35-45 | the listing is the storage-order slice of the industry's companies |
| CompanyRepository.GetByIndustryComplete | src/stockalpha/repositories/company.py:35-45 | with room for all, every company of the industry is listed |
| PriceDataRepository.WindowWhere | src/stockalpha/repositories/price_data_repository.py:27-33 | the filters admit exactly the company's bars within the optional date bounds |
| PriceDataRepository.GetByCompany | src/stockalpha/repositories/price_data_repository.py:17-35 | at most limit of the company's bars within the window, oldest first |
| PriceDataRepository.GetByCompanyComplete | src/stockalpha/repositories/price_data_repository.py:17-35 | with room for all, every bar in the window is returned |
| PriceDataRepository.GetByCompanyPages | src/stockalpha/repositories/price_data_repository.py:35 | two consecutive pages of n bars are the page of 2n bars |
| PriceDataRepository.GetByDate | src/stockalpha/repositories/price_data_repository.py:37-45 | None exactly when the company has no bar that day, otherwise that day's bar |
| PriceDataRepository.GetByDateStored | src/stockalpha/repositories/price_data_repository.py:37-45 | by the unique index, the lookup of a stored bar's company and day is that bar |
| PriceDataRepository.NewEntries | src/stockalpha/repositories/price_data_repository.py:71-81 | the kept payloads are the batch's payloads, in input order, whose key is not stored |
| PriceDataRepository.NewEntriesMembers | src/stockalpha/repositories/price_data_repository.py:71-81 | a payload is kept exactly when no stored bar has its company and date |
| PriceDataRepository.ExistingKeys | src/stockalpha/repositories/price_data_repository.py:54-68 | the keys found by the bulk lookup are, for every payload, stored exactly when a stored bar has that payload's key |
| PriceDataRepository.KeepNew | src/stockalpha/repositories/price_data_repository.py:71-81 | the keep loop computes the kept payloads |
| PriceDataRepository.CreateBatch | src/stockalpha/repositories/price_data_repository.py:47-94 | as written, `create_batch` bulk-inserts the kept payloads, appending their rows or leaving the table unchanged, and then fails with InvalidRequestError whenever it kept a payload |
| PriceDataRepository.PayloadConforms | src/stockalpha/api/schemas.py:29 | the record built from a validated price payload fits the table |
| PriceDataRepository.PayloadAccepted | src/stockalpha/models/entities.py:72 | a validated payload whose key is not stored is accepted |
| PriceDataRepository.DistinctNewKeysAccepted | src/stockalpha/repositories/price_data_repository.py:84-86 | a batch of new, pairwise different keys is inserted whole while the id sequence is past every stored id |
| PriceDataRepository.RepeatRefused | src/stockalpha/models/entities.py:72 | once a payload's bar is stored, inserting the payload again is an integrity error |
| PriceDataRepository.CreateBatchRepeatFails | src/stockalpha/repositories/price_data_repository.py:66-86 | as written, a batch naming the same new bar twice keeps both payloads and the bulk insert fails with an integrity error |
| PriceDataRepository.CreateBatchRaisesAfterCommit | src/stockalpha/repositories/price_data_repository.py:83-94 | as written, a batch of one new bar is committed, and the call still fails with InvalidRequestError |
| PriceDataRepository.FreshEntries | src/stockalpha/repositories/price_data_repository.py:71-81 | with the fix, a payload is kept when its key is neither stored nor kept earlier in the batch |
| PriceDataRepository.FreshEntriesKept | src/stockalpha/repositories/price_data_repository.py:71-81 | kept payloads are payloads of the batch whose key is not stored |
| PriceDataRepository.FreshEntriesDistinct | src/stockalpha/repositories/price_data_repository.py:71-81 | no two kept payloads share a key |
| PriceDataRepository.FreshEntriesCover | src/stockalpha/repositories/price_data_repository.py:71-81 | every payload's key is stored already or is the key of a kept payload |
| PriceDataRepository.KeepFresh | src/stockalpha/repositories/price_data_repository.py:71-81 | the fixed keep loop computes the fresh payloads |
| PriceDataRepository.FreshBatchAccepted | src/stockalpha/repositories/price_data_repository.py:84-86 | while the id sequence is past every stored id, the fresh payloads of a validated batch are inserted, after which every payload's bar is stored |
| PriceDataRepository.CreateBatchSkippingRepeats | src/stockalpha/repositories/price_data_repository.py:47-94 | the fixed `create_batch` returns the rows it stored; it succeeds whenever the id sequence is past every stored id, and leaves every payload's bar stored |
| PriceDataRepository.StoredAfter | src/stockalpha/repositories/price_data_repository.py:84-86 | once the kept payloads are stored, every payload's bar is |
| FundamentalDataRepository.RunNewestFirst | src/stockalpha/repositories/fundamental_data_repository.py:88-91 | a query ordered by year then quarter descending lists the newest period first |
| FundamentalDataRepository.CompanyWhere | src/stockalpha/repositories/fundamental_data_repository.py:25-30 | the filters admit exactly the company's reports, of the period type when one is truthy |
| FundamentalDataRepository.GetByCompany | src/stockalpha/repositories/fundamental_data_repository.py:18-39 | at most min(limit, 1000) of the company's reports, newest period first |
| FundamentalDataRepository.GetByCompanyComplete | src/stockalpha/repositories/fundamental_data_repository.py:18-39 | with room for all, every report of the company is returned |
| FundamentalDataRepository.GetByCompanyCapped | src/stockalpha/repositories/fundamental_data_repository.py:23 | asking for more than 1000 reports is asking for 1000 |
| FundamentalDataRepository.PeriodWhere | src/stockalpha/repositories/fundamental_data_repository.py:50-59 | the filters admit the company's reports of that year and of the quarter when it is not None and the period type when it is truthy |
| FundamentalDataRepository.GetByPeriod | src/stockalpha/repositories/fundamental_data_repository.py:41-61 | None exactly when no report matches, otherwise a matching report |
| FundamentalDataRepository.GetByPeriodStored | src/stockalpha/repositories/fundamental_data_repository.py:41-61 | with the whole key given, the unique index makes the answer the stored report itself |
| FundamentalDataRepository.KeyDeterminesRow | src/stockalpha/models/entities.py:103-110 | two stored reports agreeing on the whole key, quarter not NULL, are the same row |
| FundamentalDataRepository.FilterWhere | src/stockalpha/repositories/fundamental_data_repository.py:78-85 | the filters admit exactly the reports matching each truthy argument |
| FundamentalDataRepository.GetFiltered | src/stockalpha/repositories/fundamental_data_repository.py:63-95 | at most min(limit, 1000) filtered reports, newest period first |
| FundamentalDataRepository.GetFilteredComplete | src/stockalpha/repositories/fundamental_data_repository.py:63-95 | with room for all, every filtered report is returned |
| FundamentalDataRepository.GetFilteredNarrows | src/stockalpha/repositories/fundamental_data_repository.py:78-85 | adding filters never lists a report the looser call does not |
| FundamentalDataRepository.GetFilteredUnfiltered | src/stockalpha/repositories/fundamental_data_repository.py:63-95 | with no filter, the listing is the whole table newest first, paged and capped |
| FundamentalDataRepository.PeriodOf | src/stockalpha/repositories/fundamental_data_repository.py:108-117 | the per-payload lookup admits the reports with the payload's company, period, year and quarter, a None quarter matching NULL |
| FundamentalDataRepository.Lookup | src/stockalpha/repositories/fundamental_data_repository.py:108-117 | the lookup finds nothing exactly when no stored report has the payload's period |
| FundamentalDataRepository.NewEntries | src/stockalpha/repositories/fundamental_data_repository.py:105-126 | the kept payloads are the batch's payloads, in input order, whose period is not stored |
| FundamentalDataRepository.NewEntriesMembers | src/stockalpha/repositories/fundamental_data_repository.py:105-126 | a payload is kept exactly when no stored report has its period |
| FundamentalDataRepository.NullQuarterSkipped | src/stockalpha/repositories/fundamental_data_repository.py:108-119 | a payload with a None quarter matching a stored NULL-quarter report is skipped, though the index would have allowed it |
| FundamentalDataRepository.KeepNew | src/stockalpha/repositories/fundamental_data_repository.py:105-126 | the keep loop computes the kept payloads |
| FundamentalDataRepository.CreateBatch | src/stockalpha/repositories/fundamental_data_repository.py:97-139 | as written, `create_batch` bulk-inserts the kept payloads, appending their rows or leaving the table unchanged, and then fails with InvalidRequestError whenever it kept a payload |
| FundamentalDataRepository.CreateBatchReturningRows | src/stockalpha/repositories/fundamental_data_repository.py:97-139 | the fixed `create_batch` returns the rows it stored, one per payload of a new period, or fails with nothing stored |
| FundamentalDataRepository.CreateBatchRaisesAfterCommit | src/stockalpha/repositories/fundamental_data_repository.py:128-139 | as written, one validated report into an empty table is committed, and the call still fails with InvalidRequestError |
| SignalRepository.Cutoff | src/stockalpha/repositories/signal_repository.py:26-28 | the cutoff is today minus days when days is within the cap, and never earlier than today minus the cap |
| SignalRepository.CompanyWhere | src/stockalpha/repositories/signal_repository.py:30-35 | the filters admit exactly the company's signals since the cutoff, of the type when one is truthy |
| SignalRepository.GetByCompany | src/stockalpha/repositories/signal_repository.py:17-37 | exactly the company's signals of the last min(days, 365) days, newest first |
| SignalRepository.LatestWhere | src/stockalpha/repositories/signal_repository.py:51 | the filters admit exactly the signals since the cutoff whose confidence reaches the minimum |
| SignalRepository.GetLatest | src/stockalpha/repositories/signal_repository.py:39-55 | at most min(limit, 500) confident signals of the last min(days, 30) days, most confident first |
| SignalRepository.GetLatestComplete | src/stockalpha/repositories/signal_repository.py:39-55 | with room for all, every confident recent signal is returned |
| SignalRepository.FilterWhere | src/stockalpha/repositories/signal_repository.py:75-91 | the filters admit exactly the signals matching each given argument |
| SignalRepository.GetFiltered | src/stockalpha/repositories/signal_repository.py:57-93 | at most min(limit, 500) filtered signals, newest first |
| SignalRepository.GetFilteredComplete | src/stockalpha/repositories/signal_repository.py:57-93 | with room for all, every filtered signal is returned |
| SignalRepository.NonPositiveConfidenceIgnored | src/stockalpha/repositories/signal_repository.py:90-91 | a minimum confidence of zero or below filters nothing |
| SignalRepository.PayloadConforms | src/stockalpha/models/signals.py:22-38 | the record built from a validated signal payload whose type fits fits the table |
| SignalRepository.BatchAccepted | src/stockalpha/repositories/signal_repository.py:114-116 | without a unique index, every batch of validated signals whose types fit is inserted whole while the id sequence is past every stored id |
| SignalRepository.BuildEntries | src/stockalpha/repositories/signal_repository.py:103-111 | the loop makes one entry per payload, in input order |
| SignalRepository.CreateBatch | src/stockalpha/repositories/signal_repository.py:95-124 | as written, `create_batch` stores every payload in input order or none, and then fails with InvalidRequestError for every non-empty batch |
| SignalRepository.CreateBatchReturningRows | src/stockalpha/repositories/signal_repository.py:95-124 | the fixed `create_batch` returns the rows it stored, one per payload; it succeeds whenever the types fit and the id sequence is past every stored id |
| SignalRepository.CreateBatchRaisesAfterCommit | src/stockalpha/repositories/signal_repository.py:113-124 | as written, one valid signal is committed, and the call still fails with InvalidRequestError |
| AnnouncementRepository.GetByCompany | src/stockalpha/repositories/announcement_repository.py:18-29 | at most limit of the company's announcements, newest first |
| AnnouncementRepository.GetByCompanyComplete | src/stockalpha/repositories/announcement_repository.py:18-29 | with room for all, every announcement of the company is listed |
| AnnouncementRepository.GetByCategory | src/stockalpha/repositories/announcement_repository.py:31-42 | at most limit announcements of exactly that primary category, newest first |
| AnnouncementRepository.GetByCategoryComplete | src/stockalpha/repositories/announcement_repository.py:31-42 | with room for all, every announcement of the category is listed |
| AnnouncementRepository.RangeWhere | src/stockalpha/repositories/announcement_repository.py:53-56 | the filters admit the announcements on or after the start and, when an end is given, on or before it |
| AnnouncementRepository.GetByDateRange | src/stockalpha/repositories/announcement_repository.py:44-58 | at most limit announcements of the range, newest first |
| AnnouncementRepository.GetByDateRangeComplete | src/stockalpha/repositories/announcement_repository.py:44-58 | with room for all, every announcement of the range is listed |
| AnnouncementRepository.FilterWhere | src/stockalpha/repositories/announcement_repository.py:73-83 | the filters admit exactly the announcements matching each truthy argument |
| AnnouncementRepository.GetFiltered | src/stockalpha/repositories/announcement_repository.py:60-85 | at most limit filtered announcements, newest first |
| AnnouncementRepository.GetFilteredComplete | src/stockalpha/repositories/announcement_repository.py:60-85 | with room for all, every filtered announcement is listed |
| AnnouncementRepository.GetFilteredUnfiltered | src/stockalpha/repositories/announcement_repository.py:60-85 | with no truthy filter, the listing is the whole table newest first, paged |
| AnnouncementRepository.GetFilteredNarrows | src/stockalpha/repositories/announcement_repository.py:73-83 | adding filters never lists an announcement the looser call does not |
| AnnouncementRepository.DateRangeIsFiltered | src/stockalpha/repositories/announcement_repository.py:44-85 | `get_by_date_range` with both dates equals `get_filtered` with only those dates |
| BacktestRepository.GetByStrategy | src/stockalpha/repositories/backtest_repository.py:15-29 | at most min(limit, 500) backtests of exactly that strategy, newest first |
| BacktestRepository.GetByStrategyComplete | src/stockalpha/repositories/backtest_repository.py:15-29 | with room for all, every backtest of the strategy is listed |
| BacktestRepository.ReturnWhere | src/stockalpha/repositories/backtest_repository.py:48-49 | the filter admits the backtests whose total return reaches the minimum, whenever one is given |
| BacktestRepository.FilterWhere | src/stockalpha/repositories/backtest_repository.py:45-49 | the strategy filter applies when truthy, the return filter whenever given (0.0 included) |
| BacktestRepository.GetFiltered | src/stockalpha/repositories/backtest_repository.py:31-53 | at most min(limit, 500) filtered backtests, newest first |
| BacktestRepository.GetFilteredComplete | src/stockalpha/repositories/backtest_repository.py:31-53 | with room for all, every filtered backtest is listed |
| BacktestRepository.StrategyIsFiltered | src/stockalpha/repositories/backtest_repository.py:15-53 | `get_filtered` with only a non-empty strategy equals `get_by_strategy` |
| BacktestRepository.GetFilteredUnfiltered | src/stockalpha/repositories/backtest_repository.py:31-53 | with neither filter, the listing is the whole table newest first, paged and capped |
| BacktestRepository.IdIn | src/stockalpha/repositories/backtest_repository.py:61 | `id IN (...)` admits exactly the rows whose id is listed |
| BacktestRepository.GetMultipleByIds | src/stockalpha/repositories/backtest_repository.py:55-64 | exactly the stored backtests whose id is listed, newest first |
| BacktestRepository.FoundAllExactly | src/stockalpha/repositories/backtest_repository.py:59-63 | with unique ids, the lookup finds as many rows as ids exactly when every id is stored and none repeats |
| BacktestRepository.GetMultipleByIdsCount | src/stockalpha/repositories/backtest_repository.py:55-64 | on a valid table, `get_multiple_by_ids` returns one row per id exactly when all are stored and none repeats |
| Registry.Repository.constructor | src/stockalpha/repositories/__init__.py:48 | a new repository instance is of the class it was built from |
| Registry.Registry.constructor | src/stockalpha/repositories/__init__.py:24 | the cache starts empty |
| Registry.Registry.GetRepository | src/stockalpha/repositories/__init__.py:27-50 | returns the cached instance of the class when there is one, changing nothing; otherwise caches and returns a fresh one; other entries are kept |
| Registry.Registry.GetCompanyRepository | src/stockalpha/repositories/__init__.py:54-55 | the company repository from the cache, created once |
| Registry.Registry.GetAnnouncementRepository | src/stockalpha/repositories/__init__.py:58-59 | the announcement repository from the cache, created once |
| Registry.Registry.GetPriceDataRepository | src/stockalpha/repositories/__init__.py:62-63 | the price data repository from the cache, created once |
| Registry.Registry.GetFundamentalDataRepository | src/stockalpha/repositories/__init__.py:66-67 | the fundamentals repository from the cache, created once |
| Registry.Registry.GetSignalRepository | src/stockalpha/repositories/__init__.py:70-71 | the signal repository from the cache, created once |
| Registry.Registry.GetBacktestRepository | src/stockalpha/repositories/__init__.py:74-75 | the backtest repository from the cache, created once |
| Registry.RequestedTwice | src/stockalpha/repositories/__init__.py:46-50 | two requests for a class hand back the same instance |
| Http.FetchById | src/stockalpha/api/routes/company.py:48-54 | the lookup by id answers with the stored row exactly when one has the id, otherwise 404 with the detail |
| Http.FetchStored | src/stockalpha/api/routes/company.py:48-54 | with unique ids, the lookup of a stored row's id answers with that row |
| Http.ReferencesAppend | src/stockalpha/models/entities.py:36 | rows that all refer to stored companies can be appended without breaking a reference |
| Http.ReferencesKept | src/stockalpha/models/entities.py:36 | storing more companies keeps every reference good |
| Http.ForCompany | src/stockalpha/api/routes/announcement.py:82-84 | an endpoint scoped to a company answers when the company is stored, otherwise 404 "Company not found" |
| Http.CreateForCompany | src/stockalpha/api/routes/announcement.py:16-31 | 404 and no change unless the payload's company is stored; a refused insert fails with its error and no change; otherwise the built row is appended; references stay good |
| Http.ReferencesAfterCreate | src/stockalpha/api/routes/announcement.py:21-28 | a row built from a payload naming a stored company keeps every reference |
| CompanyRoutes.FreeTickerError | src/stockalpha/api/routes/company.py:18-25 | a company with a free ticker is refused only for a string too long (data error), a missing name, or a taken next id (integrity errors) |
| CompanyRoutes.CreateCompany | src/stockalpha/api/routes/company.py:14-28 | 400 "Company already exists" and no change when the ticker is taken; otherwise the insert's error with no row added, or the company stored under the next id and returned; it is stored exactly when it has a name, its strings fit and the next id is free |
| CompanyRoutes.CreatedCompanyFound | src/stockalpha/api/routes/company.py:57-64 | after a create, the lookup by the new ticker answers with the new company |
| CompanyRoutes.ListCompanies | src/stockalpha/api/routes/company.py:31-44 | at most limit stored companies, of the sector when one is truthy |
| CompanyRoutes.ListCompaniesBySector | src/stockalpha/api/routes/company.py:31-44 | with a non-empty sector, the listing is `get_by_sector` |
| CompanyRoutes.ListCompaniesUnfiltered | src/stockalpha/api/routes/company.py:31-44 | without a truthy sector, the listing is `get_multi` |
| CompanyRoutes.GetCompany | src/stockalpha/api/routes/company.py:47-54 | the company with that id, or 404 "Company not found" |
| CompanyRoutes.GetCompanyByTicker | src/stockalpha/api/routes/company.py:57-64 | the company with that ticker, or 404 "Company not found" |
| AnnouncementRoutes.CreateAnnouncement | src/stockalpha/api/routes/announcement.py:15-31 | 404 and no change unless the company is stored; otherwise the insert's error with no row added, or the announcement stored under the next id; it is stored exactly when its strings fit and the next id is free; references stay good |
| AnnouncementRoutes.ListAnnouncements | src/stockalpha/api/routes/announcement.py:34-59 | at most limit announcements matching each truthy filter, newest first |
| AnnouncementRoutes.ListAnnouncementsComplete | src/stockalpha/api/routes/announcement.py:34-59 | with room for all, every matching announcement is listed |
| AnnouncementRoutes.GetAnnouncement | src/stockalpha/api/routes/announcement.py:62-71 | the announcement with that id, or 404 "Announcement not found" |
| AnnouncementRoutes.GetCompanyAnnouncements | src/stockalpha/api/routes/announcement.py:74-96 | 404 for an unknown company; otherwise at most limit of its announcements, newest first |
| AnnouncementRoutes.CompanyAnnouncementsListed | src/stockalpha/api/routes/announcement.py:74-96 | for a stored company with a non-zero id, the page is the listing filtered by that company |
| AnnouncementRoutes.CompanyAnnouncementsComplete | src/stockalpha/api/routes/announcement.py:74-96 | with room for all, every announcement of a stored company is on its page |
| BacktestRoutes.CreateBacktest | src/stockalpha/api/routes/backtest.py:15-23 | the insert's error with no row added, or the backtest stored under the next id and returned; it is stored exactly when its strings fit and the next id is free |
| BacktestRoutes.ListBacktests | src/stockalpha/api/routes/backtest.py:26-43 | at most limit backtests matching the filters, newest first |
| BacktestRoutes.ListBacktestsIsFiltered | src/stockalpha/api/routes/backtest.py:26-43 | within the repository's cap of 500 the listing is `get_filtered` |
| BacktestRoutes.ListBacktestsComplete | src/stockalpha/api/routes/backtest.py:26-43 | with room for all, every matching backtest is listed, however many |
| BacktestRoutes.GetBacktest | src/stockalpha/api/routes/backtest.py:46-53 | the backtest with that id, or 404 "Backtest not found" |
| BacktestRoutes.RunRecordFits | src/stockalpha/api/routes/backtest.py:74-87 | the strings of a run's record fit their columns exactly when its name has at most 100 characters and its strategy at most 50 |
| BacktestRoutes.RunBacktest | src/stockalpha/api/routes/backtest.py:56-93 | a run is stored exactly when its name fits 100 characters, its strategy 50 and the next id is free, and is refused with a data or an integrity error otherwise; the stored run is named as given or `<strategy> Backtest - <stamp>` when the name is falsy, with zero metrics, zero trades and NULL in the columns it does not set |
| BacktestRoutes.DeleteBacktest | src/stockalpha/api/routes/backtest.py:96-106 | 404 and no change when no backtest has the id; otherwise exactly that backtest is deleted and the success message returned |
| BacktestRoutes.CompareBacktests | src/stockalpha/api/routes/backtest.py:109-120 | 404 unless as many backtests are found as ids asked; then exactly the stored backtests with a listed id |
| BacktestRoutes.CompareBacktestsFound | src/stockalpha/api/routes/backtest.py:109-120 | on a valid table, the comparison answers exactly when every id is stored and none repeats |
| BacktestRoutes.CompareIsMultipleByIds | src/stockalpha/api/routes/backtest.py:112-120 | an answered comparison holds the same backtests as `get_multiple_by_ids` |
| SignalRoutes.CreateSignal | src/stockalpha/api/routes/signal.py:16-30 | 404 and no change unless the company is stored; otherwise the insert's error with no row added, or the signal stored under the next id; it is stored exactly when its type fits and the next id is free; references stay good |
| SignalRoutes.ListSignals | src/stockalpha/api/routes/signal.py:33-66 | at most limit signals matching the filters, newest first |
| SignalRoutes.ListSignalsIsFiltered | src/stockalpha/api/routes/signal.py:33-66 | within the repository's cap of 500 the listing is `get_filtered` |
| SignalRoutes.ListSignalsComplete | src/stockalpha/api/routes/signal.py:33-66 | with room for all, every matching signal is listed, however many |
| SignalRoutes.GetSignal | src/stockalpha/api/routes/signal.py:69-76 | the signal with that id, or 404 "Signal not found" |
| SignalRoutes.GetLatestSignals | src/stockalpha/api/routes/signal.py:79-97 | at most limit signals since today minus days whose confidence reaches the minimum, most confident first |
| SignalRoutes.LatestSignalsWithinCaps | src/stockalpha/api/routes/signal.py:79-97 | within 30 days and 500 rows the endpoint equals the repository's `get_latest` |
| SignalRoutes.LatestSignalsComplete | src/stockalpha/api/routes/signal.py:79-97 | with room for all, every confident signal of the look-back is returned |
| SignalRoutes.GetCompanySignals | src/stockalpha/api/routes/signal.py:100-127 | 404 for an unknown company; otherwise exactly its signals since today minus days, of the type when truthy, newest first |
| SignalRoutes.CompanySignalsWithinCap | src/stockalpha/api/routes/signal.py:100-127 | within 365 days, the company's signals are the repository's `get_by_company` |
| FundamentalRoutes.FreePeriodError | src/stockalpha/api/routes/fundamental.py:26-45 | a validated report whose period no stored report has is refused only for a string too long (data error) or a taken next id (integrity error) |
| FundamentalRoutes.ClashMeansSamePeriod | src/stockalpha/models/entities.py:103-110 | colliding with a report's record on the unique index means having its company, period, year and quarter |
| FundamentalRoutes.CreateFundamentalData | src/stockalpha/api/routes/fundamental.py:15-48 | 404 for an unknown company, 400 when the period is stored; otherwise the insert's error with no row added, or the report stored under the next id, which happens exactly when its strings fit and the next id is free; references stay good |
| FundamentalRoutes.ListFundamentals | src/stockalpha/api/routes/fundamental.py:51-79 | at most limit reports matching each truthy filter, newest period first |
| FundamentalRoutes.ListFundamentalsIsFiltered | src/stockalpha/api/routes/fundamental.py:51-79 | within the repository's cap of 1000 the listing is `get_filtered` |
| FundamentalRoutes.ListFundamentalsComplete | src/stockalpha/api/routes/fundamental.py:51-79 | with room for all, every matching report is listed, however many |
| FundamentalRoutes.GetFundamental | src/stockalpha/api/routes/fundamental.py:82-91 | the report with that id, or 404 "Fundamental data not found" |
| FundamentalRoutes.GetCompanyFundamentals | src/stockalpha/api/routes/fundamental.py:94-124 | 404 for an unknown company; otherwise at most limit of its reports, of the period type when truthy, newest first |
| FundamentalRoutes.CompanyFundamentalsWithinCap | src/stockalpha/api/routes/fundamental.py:94-124 | within the cap of 1000 the endpoint answers with `get_by_company` |
| FundamentalRoutes.CompanyFundamentalsComplete | src/stockalpha/api/routes/fundamental.py:94-124 | with room for all, every report of a stored company is returned |
| MarketDataRoutes.ExistingBar | src/stockalpha/api/routes/market_data.py:24-32 | the lookup finds nothing exactly when no stored bar has the payload's company and date |
| MarketDataRoutes.CreatePriceData | src/stockalpha/api/routes/market_data.py:15-44 | 404 for an unknown company, 400 when the bar is stored; otherwise the insert's error with no row added, or the bar stored under the next id, which happens exactly when the next id is free; references stay good |
| MarketDataRoutes.KnownOnly | src/stockalpha/api/routes/market_data.py:55-58 | the payloads naming a stored company, in input order |
| MarketDataRoutes.KnownOnlyMembers | src/stockalpha/api/routes/market_data.py:55-58 | a payload is kept exactly when its company is stored |
| MarketDataRoutes.AdmittedMembers | src/stockalpha/api/routes/market_data.py:54-76 | a payload is added to the session exactly when its company is stored and its bar is not |
| MarketDataRoutes.KeepAdmitted | src/stockalpha/api/routes/market_data.py:54-76 | the handler's loop computes the admitted payloads |
| MarketDataRoutes.BatchReferences | src/stockalpha/api/routes/market_data.py:54-78 | rows stored from payloads of stored companies keep every reference |
| MarketDataRoutes.CreatePriceDataBatch | src/stockalpha/api/routes/market_data.py:47-84 | the admitted payloads are committed at once: all are stored, or the commit fails and nothing is |
| MarketDataRoutes.CreatePriceDataBatchRepeatFails | src/stockalpha/api/routes/market_data.py:54-78 | as written, a batch naming the same new bar of a stored company twice admits both and the commit fails with an integrity error |
| MarketDataRoutes.KeepAdmittedOnce | src/stockalpha/api/routes/market_data.py:54-76 | the fixed loop also skips a bar already added in this batch |
| MarketDataRoutes.CreatePriceDataBatchSkippingRepeats | src/stockalpha/api/routes/market_data.py:47-84 | the fixed handler commits whenever the id sequence is past every stored id, and then leaves the bar of every payload of a stored company stored |
| MarketDataRoutes.ListWhere | src/stockalpha/api/routes/market_data.py:99-106 | the filters admit the bars of the company when truthy, within the optional dates |
| MarketDataRoutes.ListPriceData | src/stockalpha/api/routes/market_data.py:87-108 | at most limit matching bars, newest day first |
| MarketDataRoutes.ListPriceDataComplete | src/stockalpha/api/routes/market_data.py:87-108 | with room for all, every matching bar is listed |
| MarketDataRoutes.ListPriceDataUnfiltered | src/stockalpha/api/routes/market_data.py:87-108 | with no truthy filter, the listing is the whole table newest first, paged |
| MarketDataRoutes.GetCompanyPriceData | src/stockalpha/api/routes/market_data.py:111-139 | 404 for an unknown company; otherwise its bars from the required start date to the end date, or today, oldest first |
| MarketDataRoutes.CompanyPriceDataComplete | src/stockalpha/api/routes/market_data.py:111-139 | every bar of a stored company inside the window is returned |
| MarketDataRoutes.CompanyPriceDataIsRepository | src/stockalpha/api/routes/market_data.py:126-139 | the endpoint answers with the repository's `get_by_company` over the window |

## Left out

- **Clock:** `datetime.now()` and `datetime.utcnow()` are parameters: `now` for the timestamps a create sets, `today` for look-back windows, and `stamp` for the generated backtest name. Dates and timestamps are whole day numbers.
- **Numbers:** floats are modelled as mathematical reals. Integers are unbounded, so database integer width is not modelled.
- **NULL ordering:** NULLs sort after every value, as in PostgreSQL. Rows with equal sort keys keep storage order. The database itself does not promise that tie order.
- **Session mechanics:** `refresh`, `bulk_save_objects` and `autoflush=False` are modelled through their effect. A commit stores every pending row or none. Rows added to the session are invisible to queries until the commit.
- **Batch results:** `Refreshed` stands for the closing `db.refresh` loop of the batch creates: objects saved with `bulk_save_objects` are not attached to the session, so refreshing them raises `InvalidRequestError` after the commit (see Findings).
- **Request validation:** Pydantic schemas are modelled as predicates on payloads. The create schemas for fundamentals, signals and backtests are not part of this model, so their payloads are the entity's columns with the NOT NULL ones present and typed.
- **Foreign keys:** the foreign keys are not enforced by the model's storage. Instead, every create endpoint is proved to keep `Http.References`: each stored row refers to a stored company.
- **Broken import:** `src/stockalpha/repositories/__init__.py:11` imports `company_repository`, but the file is `company.py`. The registry is modelled as if the import worked.
- **Negative arguments:** `skip` and `limit` are natural numbers, so negative values of them are not modelled. The look-back `days` is an `int`, as in the source: a negative value puts the cutoff after today, just as `timedelta(days=-n)` does (`SignalRepository.Cutoff`).
- **Id sequence:** a refused bulk insert does not consume ids here; in PostgreSQL it may use up some. A single insert consumes its id only on an integrity error.
- **Request parameters:** the start date of the company price endpoint is a required query parameter (src/stockalpha/api/schemas.py:80); the 422 answer for a missing one is FastAPI's and is not modelled, so `GetCompanyPriceData` takes it as given and the 30-day fallback never applies.
- BaseRepository.Table.Update: is specified for a row as stored, that is a freshly loaded `db_obj`. Stale or detached objects are not modelled. As with `onupdate`, `updated_at` is set only when some attribute actually changed, and the payload's own `updated_at` wins when it changes it. An `id` or timestamp of the wrong kind is refused as a data error.
- **Not part of this model:** concurrency, the database connection, middleware, application start-up and logging.

## Findings

| source | as written | input that shows it | evidently intended | confidence | as-written member | corrected member |
|---|---|---|---|---|---|---|
| src/stockalpha/repositories/price_data_repository.py:66-81 | the keys kept in the loop are never added to `existing_keys`, so every payload with a new key is kept, repeats included | a batch `[p, p]` for a bar of (company, date) not yet stored: both are kept and the bulk insert violates the unique index, so the whole batch fails with an integrity error | a key kept once is skipped afterwards, so the batch stores the bar once and succeeds | not executed | PriceDataRepository.CreateBatchRepeatFails | PriceDataRepository.CreateBatchSkippingRepeats |
| src/stockalpha/api/routes/market_data.py:54-78 | each payload is checked against stored bars only; with autoflush off the bars added earlier in the loop are not seen | a batch `[p, p]` for a stored company and a day without a bar: both are added and the commit fails with an integrity error | a bar added earlier in the batch is skipped like a stored one | not executed | MarketDataRoutes.CreatePriceDataBatchRepeatFails | MarketDataRoutes.CreatePriceDataBatchSkippingRepeats |
| src/stockalpha/repositories/price_data_repository.py:84-92 | the objects go to `bulk_save_objects`, which does not attach them to the session, and then each is passed to `db.refresh` | a batch of one new bar: the commit stores it, then `db.refresh(entry)` raises InvalidRequestError, so the call fails although the bar is stored | the stored rows are returned | not executed | PriceDataRepository.CreateBatchRaisesAfterCommit | PriceDataRepository.CreateBatchSkippingRepeats |
| src/stockalpha/repositories/fundamental_data_repository.py:129-137 | the same bulk save followed by `db.refresh` of each unattached object | one validated report into an empty table: it is committed, then the refresh raises InvalidRequestError | the stored rows are returned | not executed | FundamentalDataRepository.CreateBatchRaisesAfterCommit | FundamentalDataRepository.CreateBatchReturningRows |
| src/stockalpha/repositories/signal_repository.py:114-122 | the same bulk save followed by `db.refresh` of each unattached object | one valid signal: it is committed, then the refresh raises InvalidRequestError | the stored rows are returned | not executed | SignalRepository.CreateBatchRaisesAfterCommit | SignalRepository.CreateBatchReturningRows |

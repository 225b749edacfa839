/**
 * The announcement endpoints: create for a stored company, list with the
 * optional filters, the lookup by id, and one company's announcements.
 */
module AnnouncementRoutes {
  import opened Wrappers
  import opened Models
  import opened Query
  import opened BaseRepository
  import opened AnnouncementRepository
  import opened Http

  const AnnouncementMissing: string := "Announcement not found"

  /** `create_announcement`: 404 unless the payload's company is stored;
      otherwise the insert, whose error is the commit's. The table has no
      unique index, so a validated announcement is stored exactly when its
      strings fit their columns and the next id is free. Every stored
      announcement keeps referring to a stored company. */
  method CreateAnnouncement(companies: Table, announcements: Table, payload: Record, now: int) returns (res: Response<Row>)
    requires companies.Valid() && announcements.Valid() && companies != announcements
    requires announcements.schema == AnnouncementTable && CreatePayload(AnnouncementTable, payload)
    modifies announcements
    ensures announcements.Valid()
    ensures !CompanyKnown(companies.rows, PayloadField(payload, CompanyId)) ==>
      && res == Rejected(NotFoundStatus, CompanyMissing)
      && announcements.rows == old(announcements.rows) && announcements.nextId == old(announcements.nextId)
    ensures CompanyKnown(companies.rows, PayloadField(payload, CompanyId)) ==>
      if CreateError(AnnouncementTable, old(announcements.rows), old(announcements.nextId), payload).None? then
        && res == Ok(NewRow(old(announcements.nextId), now, Materialize(AnnouncementTable, payload)))
        && announcements.rows == old(announcements.rows) + [res.body]
      else
        && res == Failed(CreateError(AnnouncementTable, old(announcements.rows), old(announcements.nextId), payload).value)
        && announcements.rows == old(announcements.rows)
    ensures CompanyKnown(companies.rows, PayloadField(payload, CompanyId)) ==>
      (res.Ok? <==> WithinLengths(AnnouncementTable, payload) && !IdTaken(old(announcements.rows), old(announcements.nextId)))
    ensures References(companies.rows, old(announcements.rows)) ==> References(companies.rows, announcements.rows)
  {
    AnnouncementDefaultsTyped();
    UnindexedCreateError(AnnouncementTable, announcements.rows, announcements.nextId, payload);
    res := CreateForCompany(companies, announcements, payload, now);
  }

  /** `list_announcements`: the same filters as the repository's
      `get_filtered` (company and category when truthy, dates when given),
      newest first, paged, no cap on the limit. */
  function ListAnnouncements(rows: seq<Row>, skip: nat, limit: nat, companyId: Option<int>, category: Option<string>,
                             startDate: Option<int>, endDate: Option<int>): (r: seq<Row>)
    ensures |r| <= limit
    ensures forall x :: x in r ==> x in rows && Filtered(x, companyId, category, startDate, endDate)
    ensures Descending(Date, r)
  {
    GetFiltered(rows, companyId, category, startDate, endDate, skip, limit)
  }

  /** From the first row and with room for all, every matching announcement is listed. */
  lemma ListAnnouncementsComplete(rows: seq<Row>, limit: nat, companyId: Option<int>, category: Option<string>,
                                  startDate: Option<int>, endDate: Option<int>)
    requires limit >= |rows|
    ensures forall x :: x in rows && Filtered(x, companyId, category, startDate, endDate) ==>
      x in ListAnnouncements(rows, 0, limit, companyId, category, startDate, endDate)
  {
    GetFilteredComplete(rows, companyId, category, startDate, endDate, limit);
  }

  /** `get_announcement`: the announcement with that id, or 404. */
  function GetAnnouncement(rows: seq<Row>, id: int): (res: Response<Row>)
    ensures res.Ok? <==> exists x :: x in rows && x.id == id
    ensures res.Ok? ==> res.body in rows && res.body.id == id
    ensures !res.Ok? ==> res == Rejected(NotFoundStatus, AnnouncementMissing)
  {
    FetchById(rows, id, AnnouncementMissing)
  }

  /** `get_company_announcements`: 404 unless the company is stored;
      otherwise its announcements, newest first, paged. */
  function GetCompanyAnnouncements(companies: seq<Row>, rows: seq<Row>, companyId: int, skip: nat, limit: nat): (res: Response<seq<Row>>)
    ensures res.Ok? <==> exists c :: c in companies && c.id == companyId
    ensures !res.Ok? ==> res == Rejected(NotFoundStatus, CompanyMissing)
    ensures res.Ok? ==> |res.body| <= limit && Descending(Date, res.body)
    ensures res.Ok? ==> forall x :: x in res.body ==> x in rows && Field(x, CompanyId) == Int(companyId)
  {
    ForCompany(companies, companyId, GetByCompany(rows, companyId, skip, limit))
  }

  /** For a stored company with a non-zero id, the company's page is the
      listing filtered by that company. */
  lemma CompanyAnnouncementsListed(companies: seq<Row>, rows: seq<Row>, companyId: int, skip: nat, limit: nat)
    requires companyId != 0 && exists c :: c in companies && c.id == companyId
    ensures GetCompanyAnnouncements(companies, rows, companyId, skip, limit)
         == Ok(ListAnnouncements(rows, skip, limit, Some(companyId), None, None, None))
  {
    assert FilterWhere(Some(companyId), None, None, None) == Is(CompanyId, Int(companyId));
  }

  /** With room for all, a stored company's announcements are all on its page. */
  lemma CompanyAnnouncementsComplete(companies: seq<Row>, rows: seq<Row>, companyId: int, limit: nat)
    requires limit >= |rows| && exists c :: c in companies && c.id == companyId
    ensures GetCompanyAnnouncements(companies, rows, companyId, 0, limit).Ok?
    ensures forall x :: x in rows && Field(x, CompanyId) == Int(companyId) ==>
      x in GetCompanyAnnouncements(companies, rows, companyId, 0, limit).body
  {
    GetByCompanyComplete(rows, companyId, limit);
  }
}

/**
  The report controller: a signed-in user reports a user, a post or a
  comment. New reports start pending.
*/
module Reports {
  import opened Common
  import opened Models

  /**
    `reportItem`: 400 when the item, its type or the reason is missing;
    500 when the type is not one the schema admits (`Report.create` fails
    validation); otherwise a pending report by the requesting user is
    stored under a new id.
  */
  method ReportItem(db: Db, userId: Id, reportedItem: Id, itemType: string, reason: string, now: nat)
    returns (r: Reply<Report>, id: Id)
    requires db.Valid()
    modifies db`reports
    ensures db.Valid()
    ensures r.Err? ==> db.reports == old(db.reports)
    ensures !Given(reportedItem) || !Given(itemType) || !Given(reason) ==> r == Err(400)
    ensures Given(reportedItem) && Given(itemType) && Given(reason) && ParseItemType(itemType).None? ==> r == Err(500)
    ensures r.Ok? <==> Given(reportedItem) && Given(reason) && ParseItemType(itemType).Some?
    ensures r.Ok? ==>
      && r.status == 201
      && r.body == Report(userId, reportedItem, ParseItemType(itemType).value, reason, Pending, now)
      && id !in old(db.reports)
      && db.reports == old(db.reports)[id := r.body]
  {
    id := "";
    if !Given(reportedItem) || !Given(itemType) || !Given(reason) {
      return Err(400), id;
    }
    var t := ParseItemType(itemType);
    if t.None? {
      return Err(500), id;
    }
    id := NewObjectId(db.reports.Keys);
    var report := Report(userId, reportedItem, t.value, reason, Pending, now);
    db.reports := db.reports[id := report];
    r := Ok(201, report);
  }
}

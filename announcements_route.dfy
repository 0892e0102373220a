/** Announcement creation and listing (app/api/announcements/route.ts). POST builds the
    record from the request (an author snapshot, lists parsed from comma-separated text,
    a server-side creation time) and adds it to the collection; GET lists the collection. */
module AnnouncementsRoute {
  import opened Prelude
  import opened Types

  /** The JSON body of a POST; absent fields are `None`. */
  datatype AnnouncementRequest = AnnouncementRequest(
    authorId: Id,
    authorName: string,
    collegeAbbrv: string,
    collegeId: Id,
    collegeName: string,
    roles: Option<string>,
    body: string,
    department: string,
    title: string,
    visibility: Option<string>,
    imageUrls: Option<seq<string>>)

  datatype Response = Created(id: Id) | Failed(status: nat, error: string)

  const CreateFailed := Failed(500, "Failed to create announcement")

  /** The record a POST stores, created at server time `now`. */
  function BuildAnnouncement(req: AnnouncementRequest, now: Millis): (a: Announcement)
    // the author snapshot copies the request's author and college fields verbatim
    ensures a.author.college == College(req.collegeAbbrv, req.collegeId, req.collegeName, None)
    ensures a.author.id == req.authorId && a.author.name == req.authorName
    // the lists are the request's comma-separated text, split and trimmed
    ensures a.author.roles == ParseCommaList(req.roles)
    ensures a.visibility == ParseCommaList(req.visibility)
    // the creation time is the server's, whatever the request holds
    ensures a.createdAt == now
    ensures a.imageUrls == Some(if req.imageUrls.Some? then req.imageUrls.value else [])
    ensures a.body == req.body && a.department == req.department && a.title == req.title
  {
    Announcement(
      Author(
        College(req.collegeAbbrv, req.collegeId, req.collegeName, None),
        req.authorId,
        req.authorName,
        ParseCommaList(req.roles)),
      req.body,
      now,
      req.department,
      req.title,
      ParseCommaList(req.visibility),
      Some(if req.imageUrls.Some? then req.imageUrls.value else []))
  }

  /** The POST handler: `add` assigns a fresh id (`None`: the write throws). */
  function Create(store: map<Id, Announcement>, req: AnnouncementRequest, now: Millis, newId: Option<Id>)
    : (r: (map<Id, Announcement>, Response))
    ensures r.1.Created? ==> r.1.id !in store && r.0 == store[r.1.id := BuildAnnouncement(req, now)]
    ensures r.1.Failed? ==> r.1 == CreateFailed && r.0 == store
    // a granted id not yet in use is always answered `Created` with that id
    ensures r.1.Created? <==> newId.Some? && newId.value !in store
    ensures r.1.Created? ==> r.1.id == newId.value
  {
    if newId.Some? && newId.value !in store then
      (store[newId.value := BuildAnnouncement(req, now)], Created(newId.value))
    else (store, CreateFailed)
  }

  /** An announcement as GET returns it: the document id beside the stored fields. */
  datatype Listed = Listed(id: Id, announcement: Announcement)

  datatype ListResponse = Listing(items: seq<Listed>) | ListFailed(status: nat, error: string)

  /** Newest first by creation time. */
  predicate NewestFirst(items: seq<Listed>) {
    forall i, j :: 0 <= i < j < |items| ==> items[i].announcement.createdAt >= items[j].announcement.createdAt
  }

  /** The GET handler over the store's answer to the `createdAt`-descending query
      (`None`: the query throws). */
  function List(query: Option<seq<(Id, Announcement)>>): (r: ListResponse)
    ensures query.None? ==> r == ListFailed(500, "Failed to fetch announcements")
    ensures query.Some? ==> (r.Listing? && |r.items| == |query.value|
      && forall i :: 0 <= i < |query.value| ==> r.items[i] == Listed(query.value[i].0, query.value[i].1))
  {
    match query
    case None => ListFailed(500, "Failed to fetch announcements")
    case Some(docs) => Listing(seq(|docs|, i requires 0 <= i < |docs| => Listed(docs[i].0, docs[i].1)))
  }

  /** Listing keeps the store's order: if the query answers newest first, so does GET. */
  lemma ListKeepsOrder(docs: seq<(Id, Announcement)>)
    requires forall i, j :: 0 <= i < j < |docs| ==> docs[i].1.createdAt >= docs[j].1.createdAt
    ensures NewestFirst(List(Some(docs)).items)
  {
  }
}

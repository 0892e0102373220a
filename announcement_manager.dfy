/** The announcement editor of components/announcement-manager.tsx: choosing an author,
    collecting images, uploading them, and saving the form as a new announcement (POST)
    or over an existing one (PUT). A `fetch` is an outcome passed in by the caller. */
module AnnouncementManager {
  import opened Prelude
  import opened Types
  import AnnouncementsRoute
  import UploadRoute

  /** A user as the user listing returns it, with the fields the author picker reads:
      its id, `name` (the stored full name) and college snapshot. */
  datatype UserEntry = UserEntry(id: Id, name: string, college: College)

  const EmptyForm := AnnouncementFormData("", "", "", "", "", "", "", "", "", "", [])

  /** The editor's state: the loaded users, the announcement being edited (if any), the
      images chosen but not yet uploaded, and the form. */
  datatype Editor = Editor(
    users: seq<UserEntry>,
    editingId: Option<Id>,
    selectedImages: seq<FileBlob>,
    formData: AnnouncementFormData)

  /** The form after choosing author `authorId`: the first user with that id supplies the
      author and college fields; an unknown id changes nothing. */
  function SelectAuthor(form: AnnouncementFormData, users: seq<UserEntry>, authorId: Id): (f: AnnouncementFormData)
    ensures (forall j :: 0 <= j < |users| ==> users[j].id != authorId) ==> f == form
    ensures forall j :: 0 <= j < |users| && users[j].id == authorId &&
                        (forall k :: 0 <= k < j ==> users[k].id != authorId) ==>
              f == form.(authorId := authorId, authorName := users[j].name,
                         collegeId := users[j].college.id, collegeAbbrv := users[j].college.abbrv,
                         collegeName := users[j].college.name)
  {
    var k := FindIndex(users, (u: UserEntry) => u.id == authorId);
    if k < 0 then form
    else
      var u := users[k];
      form.(authorId := u.id, authorName := u.name, collegeId := u.college.id,
            collegeAbbrv := u.college.abbrv, collegeName := u.college.name)
  }

  /** Choosing the same author twice is the same as choosing once. */
  lemma SelectAuthorIdempotent(form: AnnouncementFormData, users: seq<UserEntry>, authorId: Id)
    ensures SelectAuthor(SelectAuthor(form, users, authorId), users, authorId) == SelectAuthor(form, users, authorId)
  {
  }

  /** Adding chosen files to the selection: the images among them, appended; and whether
      the warning is shown. */
  function AddImages(selected: seq<FileBlob>, files: seq<FileBlob>): (r: (seq<FileBlob>, bool))
    ensures |selected| <= |r.0| && r.0[..|selected|] == selected
    ensures |r.0| <= |selected| + |files|
    // no warning: every chosen file is appended
    ensures !r.1 ==> r.0 == selected + files
  {
    var images := Filter(files, IsImage);
    FilterKeeps(files, IsImage);
    (selected + images, |images| != |files|)
  }

  /** The selection keeps the images already chosen and appends exactly the chosen files
      that are images; the warning is shown iff some chosen file is not an image. */
  lemma AddImagesSelectsImages(selected: seq<FileBlob>, files: seq<FileBlob>)
    ensures var (r, warned) := AddImages(selected, files);
      && |selected| <= |r| <= |selected| + |files|
      && r[..|selected|] == selected
      && (forall i :: |selected| <= i < |r| ==> IsImage(r[i]) && r[i] in files)
      && (forall i :: 0 <= i < |files| && IsImage(files[i]) ==> files[i] in r[|selected|..])
      && (warned <==> exists i :: 0 <= i < |files| && !IsImage(files[i]))
  {
    var images := Filter(files, IsImage);
    FilterKeeps(files, IsImage);
    var r := selected + images;
    assert r[..|selected|] == selected;
    assert r[|selected|..] == images;
    forall i | |selected| <= i < |r| ensures IsImage(r[i]) && r[i] in files {
      assert r[i] == images[i - |selected|];
    }
  }

  /** When every chosen file is an image, all of them are appended in the order chosen and
      no warning is shown. */
  lemma AllImagesAppended(selected: seq<FileBlob>, files: seq<FileBlob>)
    requires forall i :: 0 <= i < |files| ==> IsImage(files[i])
    ensures AddImages(selected, files) == (selected + files, false)
  {
    FilterKeeps(files, IsImage);
  }

  /** Choosing `a` and then `b` selects the same images, in the same order, as choosing
      `a + b` at once. */
  lemma AddImagesInSteps(selected: seq<FileBlob>, a: seq<FileBlob>, b: seq<FileBlob>)
    ensures AddImages(AddImages(selected, a).0, b).0 == AddImages(selected, a + b).0
  {
    var fa, fb := Filter(a, IsImage), Filter(b, IsImage);
    var mid := AddImages(selected, a).0;
    assert mid == selected + fa;
    assert AddImages(mid, b).0 == mid + fb;
    FilterAppend(a, b, IsImage);
    SeqAssoc(selected, fa, fb);
  }

  /** The multipart form `uploadImages` sends: each selected image under the field "images". */
  function UploadForm(images: seq<FileBlob>): (form: seq<UploadRoute.FormEntry>)
    ensures |form| == |images|
    ensures forall i :: 0 <= i < |images| ==> form[i].file == images[i]
    ensures forall i :: 0 <= i < |form| ==> form[i].field == UploadRoute.ImagesField
  {
    seq(|images|, i requires 0 <= i < |images| => UploadRoute.FormEntry(UploadRoute.ImagesField, images[i]))
  }

  /** The upload route reads back every selected image, in order, from that form. */
  lemma UploadFormCarriesEveryImage(images: seq<FileBlob>)
    ensures UploadRoute.FilesUnder(UploadForm(images), UploadRoute.ImagesField) == images
  {
    var form := UploadForm(images);
    var files := UploadRoute.FilesUnder(form, UploadRoute.ImagesField);
    assert |files| == |images|;
    forall i | 0 <= i < |images| ensures files[i] == images[i] {
      assert files[i] == form[i].file;
    }
  }

  /** What `uploadImages` does to the editor, the URLs it returns, and whether it sent a
      request: nothing to upload sends nothing and returns `[]`; a failed upload returns
      `[]` and keeps the selection; a successful one returns the route's URLs and clears it. */
  function AfterUpload(ed: Editor, reply: Fetched<seq<string>>): (r: (Editor, seq<string>, bool))
    ensures ed.selectedImages == [] ==> r == (ed, [], false)
    ensures ed.selectedImages != [] ==> r.2
    ensures ed.selectedImages != [] && reply.Ok? ==> r.0 == ed.(selectedImages := []) && r.1 == reply.data
    ensures !reply.Ok? ==> r.0 == ed && r.1 == []
  {
    if ed.selectedImages == [] then (ed, [], false)
    else match reply
      case Ok(urls) => (ed.(selectedImages := []), urls, true)
      case _ => (ed, [], true)
  }

  /** The form after `resetForm`: every field empty, no image selected, nothing edited. */
  function AfterReset(ed: Editor): (r: Editor)
    ensures r.users == ed.users
    ensures r.formData == EmptyForm && r.selectedImages == [] && r.editingId.None?
  {
    ed.(formData := EmptyForm, selectedImages := [], editingId := None)
  }

  /** The request a save sends. */
  datatype SaveRequest = SaveRequest(verb: string, url: string, body: AnnouncementFormData)

  /** Where a save goes: over the edited announcement if one is being edited, else to the
      collection as a new one. */
  function SaveTarget(editingId: Option<Id>): (t: (string, string))
    ensures Truthy(editingId) ==> t == ("PUT", "/api/announcements/" + editingId.value)
    ensures !Truthy(editingId) ==> t == ("POST", "/api/announcements")
  {
    if Truthy(editingId) then ("PUT", "/api/announcements/" + editingId.value)
    else ("POST", "/api/announcements")
  }

  /** What `handleSubmit` does: upload the selected images, send the form with the existing
      URLs followed by the new ones, and reset the editor if the save answers ok. */
  function AfterSubmit(ed: Editor, uploadReply: Fetched<seq<string>>, sent: Sent): (r: (Editor, SaveRequest))
    ensures var (uploaded, urls, _) := AfterUpload(ed, uploadReply);
      && r.1.body == ed.formData.(imageUrls := ed.formData.imageUrls + urls)
      && (r.1.verb, r.1.url) == SaveTarget(ed.editingId)
      && r.0 == if sent == Answered(true) then AfterReset(uploaded) else uploaded
  {
    var (uploaded, urls, _) := AfterUpload(ed, uploadReply);
    var (verb, url) := SaveTarget(ed.editingId);
    var request := SaveRequest(verb, url, ed.formData.(imageUrls := ed.formData.imageUrls + urls));
    if sent == Answered(true) then (AfterReset(uploaded), request) else (uploaded, request)
  }

  /** A failed upload does not stop the save: the form is sent with the existing URLs only. */
  lemma FailedUploadStillSaves(ed: Editor, uploadReply: Fetched<seq<string>>, sent: Sent)
    requires !uploadReply.Ok?
    ensures AfterSubmit(ed, uploadReply, sent).1.body == ed.formData
  {
    assert ed.formData.imageUrls + [] == ed.formData.imageUrls;
  }

  /** A successful upload sends the existing URLs followed by every uploaded one. */
  lemma UploadedUrlsFollowExisting(ed: Editor, urls: seq<string>, sent: Sent)
    requires ed.selectedImages != []
    ensures var body := AfterSubmit(ed, Ok(urls), sent).1.body;
      body.imageUrls[..|ed.formData.imageUrls|] == ed.formData.imageUrls
      && body.imageUrls[|ed.formData.imageUrls|..] == urls
  {
  }

  /** When the upload succeeds but the save does not, the selection is already cleared and
      the form does not hold the uploaded URLs: the uploaded images are no longer in the editor. */
  lemma UnsavedUploadLeavesEditor(ed: Editor, urls: seq<string>, sent: Sent)
    requires ed.selectedImages != [] && sent != Answered(true)
    ensures var after := AfterSubmit(ed, Ok(urls), sent).0;
      after.selectedImages == [] && after.formData == ed.formData
  {
  }

  /** The form `handleEdit` fills from an announcement: the lists joined with ", " and the
      image URLs, or `[]` when it has none. */
  function EditForm(a: Announcement): (f: AnnouncementFormData)
    ensures f.roles == Join(a.author.roles, ", ") && f.visibility == Join(a.visibility, ", ")
    ensures f.imageUrls == if a.imageUrls.Some? then a.imageUrls.value else []
    ensures f.authorId == a.author.id && f.authorName == a.author.name
    ensures f.collegeId == a.author.college.id && f.collegeAbbrv == a.author.college.abbrv
    ensures f.collegeName == a.author.college.name
    ensures f.body == a.body && f.department == a.department && f.title == a.title
  {
    AnnouncementFormData(
      a.author.id, a.author.name,
      a.author.college.abbrv, a.author.college.id, a.author.college.name,
      Join(a.author.roles, ", "),
      a.body, a.department, a.title,
      Join(a.visibility, ", "),
      if a.imageUrls.Some? then a.imageUrls.value else [])
  }

  /** The editor after `handleEdit` on a listed announcement. */
  function AfterEdit(ed: Editor, item: AnnouncementsRoute.Listed): (r: Editor)
    ensures r.formData == EditForm(item.announcement) && r.editingId == Some(item.id)
    ensures r.users == ed.users && r.selectedImages == ed.selectedImages
  {
    ed.(formData := EditForm(item.announcement), editingId := Some(item.id))
  }

  /** The JSON body of a save as the announcement route reads it: every field present. */
  function AsRequest(body: AnnouncementFormData): (req: AnnouncementsRoute.AnnouncementRequest)
    ensures req.authorId == body.authorId && req.authorName == body.authorName
    ensures req.collegeAbbrv == body.collegeAbbrv && req.collegeId == body.collegeId
    ensures req.collegeName == body.collegeName
    ensures req.body == body.body && req.department == body.department && req.title == body.title
    ensures req.roles == Some(body.roles) && req.visibility == Some(body.visibility)
    ensures req.imageUrls == Some(body.imageUrls)
  {
    AnnouncementsRoute.AnnouncementRequest(
      body.authorId, body.authorName, body.collegeAbbrv, body.collegeId, body.collegeName,
      Some(body.roles), body.body, body.department, body.title, Some(body.visibility),
      Some(body.imageUrls))
  }

  /** A list the ", " join and the server's comma parser carry unchanged. */
  predicate JoinSafe(items: seq<string>) {
    items != [""] && forall i :: 0 <= i < |items| ==> IsTrimmed(items[i]) && ',' !in items[i]
  }

  /** Editing an announcement and sending the form unchanged makes the route's record
      builder rebuild the same announcement, up to its creation time and with its image
      list made explicit, when both lists are join-safe. */
  lemma {:induction false} EditRoundTrip(a: Announcement, now: Millis)
    requires JoinSafe(a.author.roles) && JoinSafe(a.visibility)
    requires a.author.college.programme.None?
    ensures AnnouncementsRoute.BuildAnnouncement(AsRequest(EditForm(a)), now)
         == a.(createdAt := now, imageUrls := Some(if a.imageUrls.Some? then a.imageUrls.value else []))
  {
    ParseJoinRoundTrip(a.author.roles);
    ParseJoinRoundTrip(a.visibility);
  }

  /** The announcement editor's component state. */
  class AnnouncementEditor {
    var users: seq<UserEntry>
    var editingId: Option<Id>
    var selectedImages: seq<FileBlob>
    var formData: AnnouncementFormData

    function State(): Editor
      reads this
    {
      Editor(users, editingId, selectedImages, formData)
    }

    constructor (users: seq<UserEntry>)
      ensures State() == Editor(users, None, [], EmptyForm)
    {
      this.users := users;
      editingId := None;
      selectedImages := [];
      formData := EmptyForm;
    }

    method HandleAuthorSelect(authorId: Id)
      modifies this`formData
      ensures formData == SelectAuthor(old(formData), users, authorId)
    {
      var selected := Find(users, (u: UserEntry) => u.id == authorId);
      if selected.Some? {
        var u := selected.value;
        formData := formData.(authorId := u.id, authorName := u.name, collegeId := u.college.id,
                              collegeAbbrv := u.college.abbrv, collegeName := u.college.name);
      }
    }

    method HandleImageSelect(files: seq<FileBlob>) returns (warned: bool)
      modifies this`selectedImages
      ensures (selectedImages, warned) == AddImages(old(selectedImages), files)
    {
      var images := Filter(files, IsImage);
      warned := |images| != |files|;
      selectedImages := selectedImages + images;
    }

    method RemoveImage(index: int)
      modifies this`selectedImages
      ensures selectedImages == RemoveAt(old(selectedImages), index)
    {
      selectedImages := RemoveAt(selectedImages, index);
    }

    method RemoveUploadedImage(index: int)
      modifies this`formData
      ensures formData == old(formData).(imageUrls := RemoveAt(old(formData.imageUrls), index))
    {
      formData := formData.(imageUrls := RemoveAt(formData.imageUrls, index));
    }

    method UploadImages(reply: Fetched<seq<string>>) returns (urls: seq<string>, requested: bool)
      modifies this`selectedImages
      ensures (State(), urls, requested) == AfterUpload(old(State()), reply)
    {
      if |selectedImages| == 0 {
        return [], false;
      }
      requested := true;
      if reply.Ok? {
        selectedImages := [];
        urls := reply.data;
      } else {
        urls := [];
      }
    }

    method ResetForm()
      modifies this`formData, this`selectedImages, this`editingId
      ensures State() == AfterReset(old(State()))
    {
      formData := EmptyForm;
      selectedImages := [];
      editingId := None;
    }

    method HandleSubmit(uploadReply: Fetched<seq<string>>, sent: Sent) returns (request: SaveRequest)
      modifies this`formData, this`selectedImages, this`editingId
      ensures (State(), request) == AfterSubmit(old(State()), uploadReply, sent)
    {
      var newUrls, _ := UploadImages(uploadReply);
      var allUrls := formData.imageUrls + newUrls;
      var url, verb := "/api/announcements", "POST";
      if Truthy(editingId) {
        url, verb := "/api/announcements/" + editingId.value, "PUT";
      }
      request := SaveRequest(verb, url, formData.(imageUrls := allUrls));
      if sent == Answered(true) {
        ResetForm();
      }
    }

    method HandleEdit(item: AnnouncementsRoute.Listed)
      modifies this`formData, this`editingId
      ensures State() == AfterEdit(old(State()), item)
    {
      formData := EditForm(item.announcement);
      editingId := Some(item.id);
    }
  }
}

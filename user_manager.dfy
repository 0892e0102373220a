/** The user form of components/user-manager.tsx: loading every college's programmes,
    offering the chosen college's programmes, choosing and uploading a profile image, and
    creating the user. A `fetch` is an outcome passed in by the caller. */
module UserManager {
  import opened Prelude
  import opened Types
  import UsersRoute

  /** The request for one college's programmes. */
  function ProgrammesUrl(collegeId: Id): string {
    "/api/colleges/" + collegeId + "/programmes"
  }

  /** The rows one reply adds: its data when it answers ok, nothing otherwise. */
  function Rows(reply: Fetched<seq<ProgrammeRow>>): seq<ProgrammeRow> {
    if reply.Ok? then reply.data else []
  }

  /** The aggregate of the per-college replies, in college order; a reply that is not ok or
      throws adds nothing and the loop goes on. */
  function CollectTolerant(replies: seq<Fetched<seq<ProgrammeRow>>>): (all: seq<ProgrammeRow>)
    ensures (forall i :: 0 <= i < |replies| ==> !replies[i].Ok?) ==> all == []
  {
    if replies == [] then []
    else CollectTolerant(replies[..|replies| - 1]) + Rows(replies[|replies| - 1])
  }

  /** Aggregating two runs of replies is aggregating each and concatenating. */
  lemma {:induction false} CollectTolerantAppend(a: seq<Fetched<seq<ProgrammeRow>>>, b: seq<Fetched<seq<ProgrammeRow>>>)
    ensures CollectTolerant(a + b) == CollectTolerant(a) + CollectTolerant(b)
    decreases |b|
  {
    if b == [] {
      assert a + b == a;
    } else {
      var init := b[..|b| - 1];
      var last := b[|b| - 1];
      assert (a + b)[..|a + b| - 1] == a + init;
      assert (a + b)[|a + b| - 1] == last;
      CollectTolerantAppend(a, init);
      assert CollectTolerant(a + b) == CollectTolerant(a + init) + Rows(last);
      assert CollectTolerant(b) == CollectTolerant(init) + Rows(last);
      SeqAssoc(CollectTolerant(a), CollectTolerant(init), Rows(last));
    }
  }

  /** A row is in the aggregate iff some ok reply holds it. */
  lemma {:induction false} CollectTolerantMembers(replies: seq<Fetched<seq<ProgrammeRow>>>, row: ProgrammeRow)
    ensures row in CollectTolerant(replies) <==> exists i :: 0 <= i < |replies| && replies[i].Ok? && row in replies[i].data
    decreases |replies|
  {
    if replies != [] {
      var init := replies[..|replies| - 1];
      CollectTolerantMembers(init, row);
      if row in CollectTolerant(replies) && row !in Rows(replies[|replies| - 1]) {
        assert row in CollectTolerant(init);
        var i :| 0 <= i < |init| && init[i].Ok? && row in init[i].data;
        assert replies[i] == init[i];
      }
      if exists i :: 0 <= i < |replies| && replies[i].Ok? && row in replies[i].data {
        var i :| 0 <= i < |replies| && replies[i].Ok? && row in replies[i].data;
        if i < |init| {
          assert init[i] == replies[i];
        }
      }
    }
  }

  /** `p.collegeId === collegeId` */
  function OfCollege(collegeId: Id): ProgrammeRow -> bool {
    (p: ProgrammeRow) => p.collegeId == collegeId
  }

  /** The programmes offered for a college: the loaded rows with that college id, in order. */
  function CollegeProgrammes(programmes: seq<ProgrammeRow>, collegeId: Id): (r: seq<ProgrammeRow>)
    ensures forall i :: 0 <= i < |r| ==> r[i] in programmes && r[i].collegeId == collegeId
    ensures forall i :: 0 <= i < |programmes| && programmes[i].collegeId == collegeId ==> programmes[i] in r
  {
    FilterKeeps(programmes, OfCollege(collegeId));
    Filter(programmes, OfCollege(collegeId))
  }

  /** Every row belongs to the college `collegeId`. */
  predicate AllOfCollege(rows: seq<ProgrammeRow>, collegeId: Id) {
    forall i :: 0 <= i < |rows| ==> rows[i].collegeId == collegeId
  }

  /** Filtering the aggregate by one college gives back exactly that college's reply, in the
      order the route answered it, when every reply holds its own college's rows and the
      college ids are distinct. */
  lemma CollegeProgrammesOfAggregate(ids: seq<Id>, replies: seq<Fetched<seq<ProgrammeRow>>>, k: nat)
    requires |replies| == |ids| && k < |ids|
    requires forall j :: 0 <= j < |replies| ==> AllOfCollege(Rows(replies[j]), ids[j])
    requires forall j :: 0 <= j < |ids| && j != k ==> ids[j] != ids[k]
    ensures CollegeProgrammes(CollectTolerant(replies), ids[k]) == Rows(replies[k])
  {
    AggregateFiltered(ids, replies, k);
  }

  /** `CollegeProgrammesOfAggregate` on the filter itself, by induction on the replies. */
  lemma {:induction false} AggregateFiltered(ids: seq<Id>, replies: seq<Fetched<seq<ProgrammeRow>>>, k: nat)
    requires |replies| == |ids| && k < |ids|
    requires forall j :: 0 <= j < |replies| ==> AllOfCollege(Rows(replies[j]), ids[j])
    requires forall j :: 0 <= j < |ids| && j != k ==> ids[j] != ids[k]
    ensures Filter(CollectTolerant(replies), OfCollege(ids[k])) == Rows(replies[k])
    decreases |replies|
  {
    var n := |replies| - 1;
    var keep := OfCollege(ids[k]);
    var init, initIds := replies[..n], ids[..n];
    var last := Rows(replies[n]);
    assert CollectTolerant(replies) == CollectTolerant(init) + last;
    FilterAppend(CollectTolerant(init), last, keep);
    OwnRowsFiltered(last, ids[n], ids[k]);
    assert forall j :: 0 <= j < n ==> init[j] == replies[j] && initIds[j] == ids[j];
    if k == n {
      NoneOfCollege(initIds, init, ids[k]);
      assert [] + last == last;
    } else {
      AggregateFiltered(initIds, init, k);
      assert Rows(replies[k]) + [] == Rows(replies[k]);
    }
  }

  /** No reply of a college other than `collegeId` adds a row of `collegeId` to the aggregate. */
  lemma {:induction false} NoneOfCollege(ids: seq<Id>, replies: seq<Fetched<seq<ProgrammeRow>>>, collegeId: Id)
    requires |replies| == |ids|
    requires forall j :: 0 <= j < |replies| ==> AllOfCollege(Rows(replies[j]), ids[j])
    requires forall j :: 0 <= j < |ids| ==> ids[j] != collegeId
    ensures Filter(CollectTolerant(replies), OfCollege(collegeId)) == []
    decreases |replies|
  {
    if replies != [] {
      var n := |replies| - 1;
      var init, initIds := replies[..n], ids[..n];
      assert forall j :: 0 <= j < n ==> init[j] == replies[j] && initIds[j] == ids[j];
      NoneOfCollege(initIds, init, collegeId);
      OwnRowsFiltered(Rows(replies[n]), ids[n], collegeId);
      FilterAppend(CollectTolerant(init), Rows(replies[n]), OfCollege(collegeId));
    }
  }

  /** Rows all of college `own` pass the filter for `collegeId` whole when the two are the same
      college, and not at all otherwise. */
  lemma OwnRowsFiltered(rows: seq<ProgrammeRow>, own: Id, collegeId: Id)
    requires AllOfCollege(rows, own)
    ensures Filter(rows, OfCollege(collegeId)) == if own == collegeId then rows else []
  {
    if own == collegeId {
      OfCollegeKeepsAll(rows, collegeId);
    } else {
      OfCollegeKeepsNone(rows, collegeId);
    }
  }

  lemma OfCollegeKeepsAll(rows: seq<ProgrammeRow>, collegeId: Id)
    requires forall i :: 0 <= i < |rows| ==> rows[i].collegeId == collegeId
    ensures Filter(rows, OfCollege(collegeId)) == rows
  {
    assert forall i :: 0 <= i < |rows| ==> OfCollege(collegeId)(rows[i]);
    FilterKeeps(rows, OfCollege(collegeId));
  }

  lemma OfCollegeKeepsNone(rows: seq<ProgrammeRow>, collegeId: Id)
    requires forall i :: 0 <= i < |rows| ==> rows[i].collegeId != collegeId
    ensures Filter(rows, OfCollege(collegeId)) == []
  {
    assert forall i :: 0 <= i < |rows| ==> !OfCollege(collegeId)(rows[i]);
    FilterKeeps(rows, OfCollege(collegeId));
  }

  /** The email preview under the form: the login address once a registration number is typed. */
  function EmailPreview(regNo: string): (shown: string)
    ensures regNo == "" ==> shown == "RegNo@college.edu"
  {
    if regNo != "" then regNo + "@college.edu" else "RegNo@college.edu"
  }

  /** The preview shows the address the users route derives for the new identity. */
  lemma EmailPreviewMatchesServer(regNo: string)
    requires regNo != ""
    ensures EmailPreview(regNo) == UsersRoute.LoginEmail(regNo)
  {
  }

  const EmptyUserForm := UserFormData("", "", "", "", "", "", "", "")

  /** The user form's state: the loaded colleges and programmes, the chosen profile image
      (if any) and the form. */
  datatype UserEditor = UserEditor(
    colleges: seq<College>,
    programmes: seq<ProgrammeRow>,
    selectedProfileImage: Option<FileBlob>,
    userFormData: UserFormData)

  /** Choosing a college: the college is set and the programme choice is cleared. */
  function SelectCollege(form: UserFormData, collegeId: Id): (f: UserFormData)
    ensures f.collegeId == collegeId && f.programmeId == ""
    ensures f.(collegeId := form.collegeId, programmeId := form.programmeId) == form
  {
    form.(collegeId := collegeId, programmeId := "")
  }

  /** Choosing a profile image: the first chosen file, if it is an image, replaces the
      selection; otherwise the selection stays and a warning is shown. */
  function SelectProfileImage(selected: Option<FileBlob>, chosen: Option<FileBlob>): (r: (Option<FileBlob>, bool))
    ensures r.1 <==> chosen.None? || !IsImage(chosen.value)
    ensures r.1 ==> r.0 == selected
    ensures !r.1 ==> r.0 == chosen
  {
    if chosen.Some? && IsImage(chosen.value) then (chosen, false) else (selected, true)
  }

  /** What `uploadProfileImage` does: the editor afterwards, the URL it returns, and
      whether it sent a request. */
  function AfterProfileUpload(ed: UserEditor, reply: Fetched<seq<string>>): (r: (UserEditor, string, bool))
    ensures ed.selectedProfileImage.None? ==> r == (ed, "", false)
    ensures ed.selectedProfileImage.Some? ==> r.2
    ensures !reply.Ok? ==> r.0 == ed && r.1 == ""
    ensures ed.selectedProfileImage.Some? && reply.Ok? ==>
              r.0 == ed.(selectedProfileImage := None)
              && r.1 == (if |reply.data| > 0 then reply.data[0] else "")
  {
    if ed.selectedProfileImage.None? then (ed, "", false)
    else match reply
      case Ok(urls) => (ed.(selectedProfileImage := None), if |urls| > 0 && urls[0] != "" then urls[0] else "", true)
      case _ => (ed, "", true)
  }

  /** What `handleUserSubmit` does: upload the image, send the form with the uploaded URL
      (or, when there is none, the form's own), and clear the form if the create answers ok. */
  function AfterUserSubmit(ed: UserEditor, uploadReply: Fetched<seq<string>>, sent: Sent): (r: (UserEditor, UserFormData))
    ensures var (uploaded, url, _) := AfterProfileUpload(ed, uploadReply);
      && r.1.profilePicUrl == (if url != "" then url else ed.userFormData.profilePicUrl)
      && r.1.(profilePicUrl := ed.userFormData.profilePicUrl) == ed.userFormData
      && r.0 == if sent == Answered(true)
                then uploaded.(userFormData := EmptyUserForm, selectedProfileImage := None)
                else uploaded
  {
    var (uploaded, url, _) := AfterProfileUpload(ed, uploadReply);
    var body := ed.userFormData.(profilePicUrl := if url != "" then url else ed.userFormData.profilePicUrl);
    if sent == Answered(true)
    then (uploaded.(userFormData := EmptyUserForm, selectedProfileImage := None), body)
    else (uploaded, body)
  }

  /** A failed image upload does not block the create: the form is sent as it stands. */
  lemma FailedProfileUploadStillCreates(ed: UserEditor, uploadReply: Fetched<seq<string>>, sent: Sent)
    requires !uploadReply.Ok?
    ensures AfterUserSubmit(ed, uploadReply, sent).1 == ed.userFormData
  {
  }

  /** After a successful create every field is empty and no image is chosen; the loaded
      colleges and programmes stay. */
  lemma CreatedClearsForm(ed: UserEditor, uploadReply: Fetched<seq<string>>)
    ensures var after := AfterUserSubmit(ed, uploadReply, Answered(true)).0;
      && after.userFormData == EmptyUserForm && after.selectedProfileImage.None?
      && after.colleges == ed.colleges && after.programmes == ed.programmes
  {
  }

  /** The JSON body the users route reads from a submitted form: every field present. */
  function AsUserRequest(body: UserFormData): (req: UsersRoute.UserRequest)
    ensures req.fullName == body.fullName && req.regNo == body.regNo && req.collegeId == body.collegeId
    ensures req.startDate == body.startDate && req.endDate == body.endDate
    ensures req.programmeId == Some(body.programmeId) && req.roles == Some(body.roles)
    ensures req.profilePicUrl == Some(body.profilePicUrl)
  {
    UsersRoute.UserRequest(body.fullName, body.regNo, body.collegeId, Some(body.programmeId),
      body.startDate, body.endDate, Some(body.roles), Some(body.profilePicUrl))
  }

  /** The URL uploaded with the form is the one the stored user record keeps. */
  lemma UploadedUrlStored(ed: UserEditor, urls: seq<string>, sent: Sent, st: UsersRoute.Store)
    requires ed.selectedProfileImage.Some? && |urls| > 0 && urls[0] != ""
    requires ed.userFormData.collegeId in st.colleges
    ensures var body := AfterUserSubmit(ed, Ok(urls), sent).1;
      UsersRoute.UserRecord(st, AsUserRequest(body)).profilePicUrl == Some(urls[0])
  {
  }

  /** The loop of `fetchAllProgrammes`: one request per college, in college order, each
      ok reply's rows appended; `replies[i]` is how the request for `colleges[i]` turns out. */
  method LoadProgrammes(colleges: seq<College>, replies: seq<Fetched<seq<ProgrammeRow>>>)
    returns (allProgrammes: seq<ProgrammeRow>, requested: seq<string>)
    requires |replies| == |colleges|
    ensures allProgrammes == CollectTolerant(replies)
    ensures |requested| == |colleges|
    ensures forall i :: 0 <= i < |colleges| ==> requested[i] == ProgrammesUrl(colleges[i].id)
  {
    allProgrammes := [];
    requested := [];
    var i := 0;
    while i < |colleges|
      invariant 0 <= i <= |colleges|
      invariant allProgrammes == CollectTolerant(replies[..i])
      invariant |requested| == i
      invariant forall j :: 0 <= j < i ==> requested[j] == ProgrammesUrl(colleges[j].id)
    {
      requested := requested + [ProgrammesUrl(colleges[i].id)];
      match replies[i] {
        case Ok(data) => allProgrammes := allProgrammes + data;
        case _ =>
      }
      assert replies[..i + 1][..i] == replies[..i];
      i := i + 1;
    }
    assert replies[..i] == replies;
  }

  /** The user form's component state. */
  class UserForm {
    var colleges: seq<College>
    var programmes: seq<ProgrammeRow>
    var selectedProfileImage: Option<FileBlob>
    var userFormData: UserFormData

    function State(): UserEditor
      reads this
    {
      UserEditor(colleges, programmes, selectedProfileImage, userFormData)
    }

    constructor (colleges: seq<College>)
      ensures State() == UserEditor(colleges, [], None, EmptyUserForm)
    {
      this.colleges := colleges;
      programmes := [];
      selectedProfileImage := None;
      userFormData := EmptyUserForm;
    }

    /** One request per college, in college order; `replies[i]` is how the request for
        `colleges[i]` turns out. */
    method FetchAllProgrammes(replies: seq<Fetched<seq<ProgrammeRow>>>) returns (requested: seq<string>)
      requires |replies| == |colleges|
      modifies this`programmes
      ensures programmes == CollectTolerant(replies)
      ensures |requested| == |colleges|
      ensures forall i :: 0 <= i < |colleges| ==> requested[i] == ProgrammesUrl(colleges[i].id)
    {
      programmes, requested := LoadProgrammes(colleges, replies);
    }

    function GetCollegeProgrammes(collegeId: Id): (r: seq<ProgrammeRow>)
      reads this
      ensures r == CollegeProgrammes(programmes, collegeId)
    {
      Filter(programmes, OfCollege(collegeId))
    }

    method SelectCollegeValue(collegeId: Id)
      modifies this`userFormData
      ensures userFormData == SelectCollege(old(userFormData), collegeId)
    {
      userFormData := userFormData.(collegeId := collegeId, programmeId := "");
    }

    method HandleProfileImageSelect(chosen: Option<FileBlob>) returns (warned: bool)
      modifies this`selectedProfileImage
      ensures (selectedProfileImage, warned) == SelectProfileImage(old(selectedProfileImage), chosen)
    {
      if chosen.Some? && IsImage(chosen.value) {
        selectedProfileImage := chosen;
        warned := false;
      } else {
        warned := true;
      }
    }

    method RemoveProfileImage()
      modifies this`selectedProfileImage, this`userFormData
      ensures selectedProfileImage.None?
      ensures userFormData == old(userFormData).(profilePicUrl := "")
    {
      selectedProfileImage := None;
      userFormData := userFormData.(profilePicUrl := "");
    }

    method UploadProfileImage(reply: Fetched<seq<string>>) returns (url: string, requested: bool)
      modifies this`selectedProfileImage
      ensures (State(), url, requested) == AfterProfileUpload(old(State()), reply)
    {
      if selectedProfileImage.None? {
        return "", false;
      }
      requested := true;
      match reply {
        case Ok(urls) =>
          selectedProfileImage := None;
          url := if |urls| > 0 && urls[0] != "" then urls[0] else "";
        case _ =>
          url := "";
      }
    }

    method HandleUserSubmit(uploadReply: Fetched<seq<string>>, sent: Sent) returns (body: UserFormData)
      modifies this`selectedProfileImage, this`userFormData
      ensures (State(), body) == AfterUserSubmit(old(State()), uploadReply, sent)
    {
      var profileImageUrl, _ := UploadProfileImage(uploadReply);
      body := userFormData.(profilePicUrl := if profileImageUrl != "" then profileImageUrl else userFormData.profilePicUrl);
      if sent == Answered(true) {
        userFormData := EmptyUserForm;
        selectedProfileImage := None;
      }
    }
  }
}

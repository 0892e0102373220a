/** The programmes page of app/programmes/page.tsx: loading the programmes of every
    college or of one, the college filter, the programme form (create or update) and the
    college-name lookup. A `fetch` is an outcome passed in by the caller. */
module ProgrammesPage {
  import opened Prelude
  import opened Types
  import UserManager

  /** Whether a reply threw (the request or the reading of its body). */
  predicate IsThrow(reply: Fetched<seq<ProgrammeRow>>) {
    reply.Threw?
  }

  /** The aggregate of the per-college replies, in college order, skipping replies that
      are not ok; `None` when some request throws, which abandons the whole load. */
  function CollectStrict(replies: seq<Fetched<seq<ProgrammeRow>>>): (r: Option<seq<ProgrammeRow>>)
    ensures r.None? <==> exists i :: 0 <= i < |replies| && replies[i].Threw?
  {
    if replies == [] then Some([])
    else
      var init := CollectStrict(replies[..|replies| - 1]);
      var last := replies[|replies| - 1];
      if init.None? || last.Threw? then None
      else Some(init.value + UserManager.Rows(last))
  }

  /** Where no request throws, this page and the user form aggregate the same list. */
  lemma {:induction false} StrictMatchesTolerant(replies: seq<Fetched<seq<ProgrammeRow>>>)
    requires forall i :: 0 <= i < |replies| ==> !replies[i].Threw?
    ensures CollectStrict(replies) == Some(UserManager.CollectTolerant(replies))
    decreases |replies|
  {
    if replies != [] {
      StrictMatchesTolerant(replies[..|replies| - 1]);
    }
  }

  /** Where the user form keeps the rows of the colleges before a throwing request, this
      page keeps nothing. */
  lemma ThrowDiscardsEarlierRows(rows: seq<ProgrammeRow>)
    ensures CollectStrict([Ok(rows), Threw]) == None
    ensures UserManager.CollectTolerant([Ok(rows), Threw]) == rows
  {
    var replies: seq<Fetched<seq<ProgrammeRow>>> := [Ok(rows), Threw];
    assert replies[..1] == [Ok(rows)];
    assert replies[..1][..0] == [];
  }

  /** The programme form. */
  datatype ProgrammeForm = ProgrammeForm(name: string, abbrv: string, description: string, duration: string, collegeId: Id)

  const EmptyProgrammeForm := ProgrammeForm("", "", "", "", "")

  /** A JSON body as its list of fields. */
  type Body = seq<(string, string)>

  /** The request a save sends. */
  datatype ProgrammeRequest = ProgrammeRequest(verb: string, url: string, body: Body)

  /** A load the page starts without waiting for it. */
  datatype Refresh = NoRefresh | RefreshAll | RefreshCollege(collegeId: Id)

  /** The page's state: the loaded colleges and programmes, the programme being edited (if
      any), the college filter, and the form. */
  datatype Page = Page(
    colleges: seq<College>,
    programmes: seq<ProgrammeRow>,
    editingId: Option<Id>,
    selectedCollegeId: string,
    formData: ProgrammeForm)

  /** The request for one college's programmes. */
  function CollegeProgrammesUrl(collegeId: Id): string {
    "/api/colleges/" + collegeId + "/programmes"
  }

  /** `fetchProgrammesForCollege`: an ok reply replaces the list; anything else keeps it. */
  function AfterCollegeFetch(page: Page, reply: Fetched<seq<ProgrammeRow>>): (r: Page)
    ensures reply.Ok? ==> r == page.(programmes := reply.data)
    ensures !reply.Ok? ==> r == page
  {
    if reply.Ok? then page.(programmes := reply.data) else page
  }

  /** The load the college filter starts. */
  function FilterLoad(collegeId: string): (load: Refresh)
    ensures collegeId == "all" ==> load == RefreshAll
    ensures collegeId != "all" ==> load == RefreshCollege(collegeId)
  {
    if collegeId == "all" then RefreshAll else RefreshCollege(collegeId)
  }

  /** The refresh after a successful save, as the page is written: a non-empty filter
      reloads that filter value as a college id, the empty filter reloads everything. */
  function RefreshAfterSaveAsWritten(selectedCollegeId: string): (load: Refresh)
    ensures load != NoRefresh
    ensures load == RefreshAll <==> selectedCollegeId == ""
    ensures load.RefreshCollege? ==> load.collegeId == selectedCollegeId
  {
    if selectedCollegeId != "" then RefreshCollege(selectedCollegeId) else RefreshAll
  }

  /** As written, saving under the "All Colleges" filter reloads the college with id
      "all", not the aggregate the filter loaded; when no college has that id the listing
      route answers 404, and the shown list stays as it was before the save. */
  lemma AllFilterRefreshAsWritten(page: Page, reply: Fetched<seq<ProgrammeRow>>)
    requires !reply.Ok?
    ensures RefreshAfterSaveAsWritten("all") == RefreshCollege("all")
    ensures RefreshAfterSaveAsWritten("all") != FilterLoad("all")
    ensures AfterCollegeFetch(page, reply).programmes == page.programmes
  {
  }

  /** The refresh after a successful save, reloading what the current filter shows:
      the aggregate for no filter and for "all", else that college. */
  function RefreshAfterSave(selectedCollegeId: string): (load: Refresh)
    ensures selectedCollegeId != "" ==> load == FilterLoad(selectedCollegeId)
    ensures selectedCollegeId == "" ==> load == RefreshAll
    ensures load != NoRefresh
  {
    if selectedCollegeId == "" || selectedCollegeId == "all" then RefreshAll
    else RefreshCollege(selectedCollegeId)
  }

  /** A save answered ok under the "all" filter starts the reload of college "all", not the
      aggregate that filter shows; the intended refresh would reload the aggregate. */
  lemma SaveUnderAllFilter(page: Page)
    requires page.formData.collegeId != "" && page.selectedCollegeId == "all"
    ensures AfterSubmit(page, Answered(true)).2 == RefreshCollege("all")
    ensures AfterSubmit(page, Answered(true)).2 != FilterLoad(page.selectedCollegeId)
    ensures RefreshAfterSave(page.selectedCollegeId) == FilterLoad(page.selectedCollegeId)
  {
  }

  /** The corrected refresh differs from the written one only under the "all" filter. */
  lemma RefreshAfterSaveDiffersOnlyOnAll(selectedCollegeId: string)
    ensures RefreshAfterSave(selectedCollegeId) != RefreshAfterSaveAsWritten(selectedCollegeId)
            <==> selectedCollegeId == "all"
  {
  }

  /** Where a save goes: over the edited programme if one is being edited, else to the
      college's programmes as a new one. */
  function SaveTarget(collegeId: Id, editingId: Option<Id>): (t: (string, string))
    ensures Truthy(editingId) ==> t == ("PUT", "/api/colleges/" + collegeId + "/programmes/" + editingId.value)
    ensures !Truthy(editingId) ==> t == ("POST", CollegeProgrammesUrl(collegeId))
  {
    if Truthy(editingId) then ("PUT", "/api/colleges/" + collegeId + "/programmes/" + editingId.value)
    else ("POST", "/api/colleges/" + collegeId + "/programmes")
  }

  /** The body a save sends: the four text fields of the form, under their own names. */
  function SaveBody(form: ProgrammeForm): (body: Body)
    ensures body == [("name", form.name), ("abbrv", form.abbrv), ("description", form.description), ("duration", form.duration)]
    ensures forall i :: 0 <= i < |body| ==> body[i].0 != "years" && body[i].0 != "collegeId"
  {
    [("name", form.name), ("abbrv", form.abbrv), ("description", form.description), ("duration", form.duration)]
  }

  /** What `handleSubmit` does: with no college chosen, nothing is sent and nothing
      changes; otherwise the form is sent, and an ok answer clears the form, ends the
      editing and starts the refresh as written (which, under the "all" filter, asks for
      a college with id "all"). */
  function AfterSubmit(page: Page, sent: Sent): (r: (Page, Option<ProgrammeRequest>, Refresh))
    ensures page.formData.collegeId == "" ==> r == (page, None, NoRefresh)
    ensures page.formData.collegeId != "" ==>
              && r.1.Some?
              && (r.1.value.verb, r.1.value.url) == SaveTarget(page.formData.collegeId, page.editingId)
              && r.1.value.body == SaveBody(page.formData)
    ensures sent != Answered(true) ==> r.0 == page && r.2 == NoRefresh
    ensures page.formData.collegeId != "" && sent == Answered(true) ==>
              r.0 == page.(editingId := None, formData := EmptyProgrammeForm)
              && r.2 == RefreshAfterSaveAsWritten(page.selectedCollegeId)
  {
    if page.formData.collegeId == "" then (page, None, NoRefresh)
    else
      var (verb, url) := SaveTarget(page.formData.collegeId, page.editingId);
      var request := ProgrammeRequest(verb, url, SaveBody(page.formData));
      if sent == Answered(true)
      then (page.(editingId := None, formData := EmptyProgrammeForm), Some(request), RefreshAfterSaveAsWritten(page.selectedCollegeId))
      else (page, Some(request), NoRefresh)
  }

  /** The form `handleEdit` fills from a programme: missing description or duration
      become "". */
  function EditForm(row: ProgrammeRow): (f: ProgrammeForm)
    ensures f.name == row.programme.name && f.abbrv == row.programme.abbrv
    ensures f.description == OrEmpty(row.programme.description)
    ensures f.duration == OrEmpty(row.programme.duration)
    ensures f.collegeId == row.collegeId
  {
    ProgrammeForm(
      if row.programme.name != "" then row.programme.name else "",
      if row.programme.abbrv != "" then row.programme.abbrv else "",
      if Truthy(row.programme.description) then row.programme.description.value else "",
      if Truthy(row.programme.duration) then row.programme.duration.value else "",
      row.collegeId)
  }

  /** Editing a programme and saving it unchanged updates that programme under its own
      college, sending its own fields. */
  lemma EditThenSave(page: Page, row: ProgrammeRow, sent: Sent)
    requires row.collegeId != "" && row.id != ""
    ensures var edited := page.(editingId := Some(row.id), formData := EditForm(row));
      var request := AfterSubmit(edited, sent).1;
      && request.Some?
      && request.value.verb == "PUT"
      && request.value.url == "/api/colleges/" + row.collegeId + "/programmes/" + row.id
      && request.value.body == [("name", row.programme.name), ("abbrv", row.programme.abbrv),
                                ("description", OrEmpty(row.programme.description)),
                                ("duration", OrEmpty(row.programme.duration))]
  {
    var edited := page.(editingId := Some(row.id), formData := EditForm(row));
    assert Truthy(edited.editingId);
  }

  /** The name shown for a college id: the first matching college's name, else
      "Unknown College". */
  function CollegeName(colleges: seq<College>, collegeId: Id): (name: string)
    ensures (forall j :: 0 <= j < |colleges| ==> colleges[j].id != collegeId) ==> name == "Unknown College"
    ensures forall j :: 0 <= j < |colleges| && colleges[j].id == collegeId &&
                        (forall k :: 0 <= k < j ==> colleges[k].id != collegeId) ==>
              name == colleges[j].name
  {
    var k := FindIndex(colleges, (c: College) => c.id == collegeId);
    if k < 0 then "Unknown College" else colleges[k].name
  }

  /** The loop of `fetchAllProgrammes`: one request per college, in college order, each ok
      reply's rows appended, until a request throws; `replies[i]` is how the request for
      `colleges[i]` turns out. */
  method LoadProgrammes(colleges: seq<College>, replies: seq<Fetched<seq<ProgrammeRow>>>)
    returns (all: Option<seq<ProgrammeRow>>, requested: seq<string>)
    requires |replies| == |colleges|
    ensures all == CollectStrict(replies)
    ensures var k := FindIndex(replies, IsThrow);
      |requested| == if k < 0 then |colleges| else k + 1
    ensures forall i :: 0 <= i < |requested| ==> requested[i] == CollegeProgrammesUrl(colleges[i].id)
  {
    var allProgrammes: seq<ProgrammeRow> := [];
    requested := [];
    var i := 0;
    while i < |colleges|
      invariant 0 <= i <= |colleges|
      invariant CollectStrict(replies[..i]) == Some(allProgrammes)
      invariant forall j :: 0 <= j < i ==> !IsThrow(replies[j])
      invariant |requested| == i
      invariant forall j :: 0 <= j < i ==> requested[j] == CollegeProgrammesUrl(colleges[j].id)
    {
      requested := requested + [CollegeProgrammesUrl(colleges[i].id)];
      assert replies[..i + 1][..i] == replies[..i];
      match replies[i] {
        case Threw =>
          assert IsThrow(replies[i]);
          return None, requested;
        case NotOk =>
          assert allProgrammes + UserManager.Rows(replies[i]) == allProgrammes;
        case Ok(data) =>
          assert UserManager.Rows(replies[i]) == data;
          allProgrammes := allProgrammes + data;
      }
      i := i + 1;
    }
    assert replies[..i] == replies;
    all := Some(allProgrammes);
  }

  /** The programmes page's component state. */
  class ProgrammesView {
    var colleges: seq<College>
    var programmes: seq<ProgrammeRow>
    var editingId: Option<Id>
    var selectedCollegeId: string
    var formData: ProgrammeForm

    function State(): Page
      reads this
    {
      Page(colleges, programmes, editingId, selectedCollegeId, formData)
    }

    constructor (colleges: seq<College>)
      ensures State() == Page(colleges, [], None, "", EmptyProgrammeForm)
    {
      this.colleges := colleges;
      programmes := [];
      editingId := None;
      selectedCollegeId := "";
      formData := EmptyProgrammeForm;
    }

    /** `fetchAllProgrammes`: a completed load replaces the list; a throw keeps it. */
    method FetchAllProgrammes(replies: seq<Fetched<seq<ProgrammeRow>>>) returns (requested: seq<string>)
      requires |replies| == |colleges|
      modifies this`programmes
      ensures var all := CollectStrict(replies);
        programmes == if all.Some? then all.value else old(programmes)
      ensures var k := FindIndex(replies, IsThrow);
        |requested| == if k < 0 then |colleges| else k + 1
      ensures forall i :: 0 <= i < |requested| ==> requested[i] == CollegeProgrammesUrl(colleges[i].id)
    {
      var all;
      all, requested := LoadProgrammes(colleges, replies);
      if all.Some? {
        programmes := all.value;
      }
    }

    method FetchProgrammesForCollege(collegeId: Id, reply: Fetched<seq<ProgrammeRow>>) returns (requested: string)
      modifies this`programmes
      ensures State() == AfterCollegeFetch(old(State()), reply)
      ensures requested == CollegeProgrammesUrl(collegeId)
    {
      requested := "/api/colleges/" + collegeId + "/programmes";
      if reply.Ok? {
        programmes := reply.data;
      }
    }

    method HandleSubmit(sent: Sent) returns (request: Option<ProgrammeRequest>, refresh: Refresh)
      modifies this`editingId, this`formData
      ensures (State(), request, refresh) == AfterSubmit(old(State()), sent)
    {
      if formData.collegeId == "" {
        return None, NoRefresh;
      }
      var url, verb := "/api/colleges/" + formData.collegeId + "/programmes", "POST";
      if Truthy(editingId) {
        url, verb := "/api/colleges/" + formData.collegeId + "/programmes/" + editingId.value, "PUT";
      }
      request := Some(ProgrammeRequest(verb, url, SaveBody(formData)));
      refresh := NoRefresh;
      if sent == Answered(true) {
        refresh := if selectedCollegeId != "" then RefreshCollege(selectedCollegeId) else RefreshAll;
        editingId := None;
        formData := EmptyProgrammeForm;
      }
    }

    method HandleEdit(row: ProgrammeRow)
      modifies this`editingId, this`formData
      ensures editingId == Some(row.id) && formData == EditForm(row)
    {
      editingId := Some(row.id);
      formData := EditForm(row);
    }

    method HandleCollegeFilter(collegeId: string) returns (load: Refresh)
      modifies this`selectedCollegeId
      ensures selectedCollegeId == collegeId && load == FilterLoad(collegeId)
    {
      selectedCollegeId := collegeId;
      load := if collegeId == "all" then RefreshAll else RefreshCollege(collegeId);
    }

    function GetCollegeName(collegeId: Id): (name: string)
      reads this
      ensures name == CollegeName(colleges, collegeId)
    {
      var college := Find(colleges, (c: College) => c.id == collegeId);
      if college.Some? then college.value.name else "Unknown College"
    }
  }
}

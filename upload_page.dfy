/** The upload page of app/upload/page.tsx: collecting files and sending them one request
    per file to the upload route, collecting one result line per file. A `fetch` is an
    outcome passed in by the caller. */
module UploadPage {
  import opened Prelude
  import opened Types
  import UploadRoute

  /** The fields of an ok answer the page reads. */
  datatype UploadData = UploadData(url: Option<string>, downloadURL: Option<string>)

  /** The result line for one file whose request did not throw. */
  function ResultLine(f: FileBlob, reply: Fetched<UploadData>): (line: string)
    requires !reply.Threw?
    ensures reply.NotOk? ==> line == "Failed to upload " + f.name
    ensures reply.Ok? && Truthy(reply.data.url) ==> line == reply.data.url.value
    ensures reply.Ok? && !Truthy(reply.data.url) && Truthy(reply.data.downloadURL) ==> line == reply.data.downloadURL.value
    ensures reply.Ok? && !Truthy(reply.data.url) && !Truthy(reply.data.downloadURL) ==>
              line == f.name + " uploaded successfully"
  {
    match reply
    case NotOk => "Failed to upload " + f.name
    case Ok(data) =>
      if Truthy(data.url) then data.url.value
      else if Truthy(data.downloadURL) then data.downloadURL.value
      else f.name + " uploaded successfully"
  }

  /** Whether a request threw (the request or the reading of its body). */
  predicate IsThrow(reply: Fetched<UploadData>) {
    reply.Threw?
  }

  /** The first throwing reply of a run is found where the run stops. */
  lemma FirstThrowAt(replies: seq<Fetched<UploadData>>, i: nat)
    requires i < |replies| && replies[i].Threw?
    requires forall j :: 0 <= j < i ==> !replies[j].Threw?
    ensures FindIndex(replies, IsThrow) == i
  {
    assert IsThrow(replies[i]);
  }

  /** A run with no throwing reply has no first throw. */
  lemma NoThrow(replies: seq<Fetched<UploadData>>)
    requires forall j :: 0 <= j < |replies| ==> !replies[j].Threw?
    ensures FindIndex(replies, IsThrow) == -1
  {
    assert forall j :: 0 <= j < |replies| ==> !IsThrow(replies[j]);
  }

  /** The result lines of a whole run, in file order; `None` when some request throws,
      which abandons the run. */
  function Results(files: seq<FileBlob>, replies: seq<Fetched<UploadData>>): (r: Option<seq<string>>)
    requires |replies| == |files|
    ensures r.Some? ==> |r.value| == |files|
    ensures files != [] && replies[|files| - 1].Threw? ==> r.None?
    decreases |files|
  {
    if files == [] then Some([])
    else
      var n := |files| - 1;
      var init := Results(files[..n], replies[..n]);
      if init.None? || replies[n].Threw? then None
      else Some(init.value + [ResultLine(files[n], replies[n])])
  }

  /** A run is abandoned exactly when some request throws. */
  lemma {:induction false} ResultsAbandoned(files: seq<FileBlob>, replies: seq<Fetched<UploadData>>)
    requires |replies| == |files|
    ensures Results(files, replies).None? <==> exists i :: 0 <= i < |replies| && replies[i].Threw?
    decreases |files|
  {
    if files != [] {
      var n := |files| - 1;
      ResultsAbandoned(files[..n], replies[..n]);
      assert forall j :: 0 <= j < n ==> replies[..n][j] == replies[j];
    }
  }

  /** A completed run has one line per file, in file order, each the line for that file's
      answer, and no request of it threw. */
  lemma {:induction false} ResultsLines(files: seq<FileBlob>, replies: seq<Fetched<UploadData>>)
    requires |replies| == |files|
    ensures var r := Results(files, replies);
      r.Some? ==> (|r.value| == |files|
        && forall i :: 0 <= i < |files| ==> !replies[i].Threw? && r.value[i] == ResultLine(files[i], replies[i]))
    decreases |files|
  {
    if files != [] {
      var n := |files| - 1;
      ResultsLines(files[..n], replies[..n]);
      assert forall j :: 0 <= j < n ==> files[..n][j] == files[j] && replies[..n][j] == replies[j];
    }
  }

  /** The multipart form the page sends for one file: the file under the field "file". */
  function PageForm(f: FileBlob): (form: seq<UploadRoute.FormEntry>)
    ensures forall i :: 0 <= i < |form| ==> form[i].field != UploadRoute.ImagesField
    ensures form == [UploadRoute.FormEntry("file", f)]
  {
    assert "file" != UploadRoute.ImagesField by {
      assert |"file"| != |UploadRoute.ImagesField|;
    }
    [UploadRoute.FormEntry("file", f)]
  }

  /** The page's view of the upload route's answer: a rejection is not ok; an upload is ok,
      and its body holds `imageUrls` but neither `url` nor `downloadURL`. */
  function AsReply(resp: UploadRoute.UploadResponse): (reply: Fetched<UploadData>)
    ensures resp.Rejected? ==> reply == NotOk
    ensures resp.Uploaded? ==> reply == Ok(UploadData(None, None))
  {
    match resp
    case Rejected(_, _) => NotOk
    case Uploaded(_) => Ok(UploadData(None, None))
  }

  /** The upload route reads files only under "images", so it answers every request of
      this page with 400 "No files provided", whatever the bucket setting. */
  lemma PageFormRefused(f: FileBlob, bucketSetting: Option<string>)
    ensures |UploadRoute.FilesUnder(PageForm(f), UploadRoute.ImagesField)| == 0
    ensures UploadRoute.Respond(PageForm(f), bucketSetting, []) == UploadRoute.NoFiles
  {
    assert "file" != UploadRoute.ImagesField by {
      assert |"file"| != |UploadRoute.ImagesField|;
    }
    UploadRoute.NoImagesRefused(PageForm(f), bucketSetting);
  }

  /** What the route answers to each file of a run. */
  function RouteReplies(files: seq<FileBlob>, bucketSetting: Option<string>): (replies: seq<Fetched<UploadData>>)
    ensures |replies| == |files|
    ensures forall i :: 0 <= i < |files| ==> replies[i] == NotOk
  {
    seq(|files|, i requires 0 <= i < |files| =>
      PageFormRefused(files[i], bucketSetting);
      AsReply(UploadRoute.Respond(PageForm(files[i]), bucketSetting, [])))
  }

  /** Every line of a run against the upload route reports a failure, one per file in
      selection order. */
  lemma EveryResultIsFailure(files: seq<FileBlob>, bucketSetting: Option<string>)
    ensures var r := Results(files, RouteReplies(files, bucketSetting));
      && r.Some? && |r.value| == |files|
      && forall i :: 0 <= i < |files| ==> r.value[i] == "Failed to upload " + files[i].name
  {
    var replies := RouteReplies(files, bucketSetting);
    assert forall i :: 0 <= i < |replies| ==> !replies[i].Threw?;
    ResultsAbandoned(files, replies);
    ResultsLines(files, replies);
  }

  /** The page's state: the chosen files and the result lines last shown. */
  datatype View = View(selectedFiles: seq<FileBlob>, uploadResults: seq<string>)

  /** What `handleUpload` does: nothing with no file chosen; after a completed run, the
      lines are shown and the selection is cleared; a throw changes neither. */
  function AfterUpload(view: View, replies: seq<Fetched<UploadData>>): (r: View)
    requires |replies| == |view.selectedFiles|
    ensures view.selectedFiles == [] ==> r == view
    ensures (exists i :: 0 <= i < |replies| && replies[i].Threw?) ==> r == view
    ensures (forall i :: 0 <= i < |replies| ==> !replies[i].Threw?) && view.selectedFiles != [] ==>
              r.selectedFiles == [] && |r.uploadResults| == |view.selectedFiles|
              && forall i :: 0 <= i < |replies| ==> r.uploadResults[i] == ResultLine(view.selectedFiles[i], replies[i])
  {
    ResultsAbandoned(view.selectedFiles, replies);
    ResultsLines(view.selectedFiles, replies);
    if view.selectedFiles == [] then view
    else
      var results := Results(view.selectedFiles, replies);
      if results.None? then view else View([], results.value)
  }

  /** The upload page's component state. */
  class UploadForm {
    var selectedFiles: seq<FileBlob>
    var uploadResults: seq<string>

    function State(): View
      reads this
    {
      View(selectedFiles, uploadResults)
    }

    constructor ()
      ensures State() == View([], [])
    {
      selectedFiles := [];
      uploadResults := [];
    }

    /** Appends every chosen file, whatever its type. */
    method HandleFileSelect(files: seq<FileBlob>)
      modifies this`selectedFiles
      ensures selectedFiles == old(selectedFiles) + files
    {
      selectedFiles := selectedFiles + files;
    }

    method RemoveFile(index: int)
      modifies this`selectedFiles
      ensures selectedFiles == RemoveAt(old(selectedFiles), index)
    {
      selectedFiles := RemoveAt(selectedFiles, index);
    }

    /** `handleUpload`: with files chosen, run the requests and, if the run completes,
        show its lines and clear the selection. */
    method HandleUpload(replies: seq<Fetched<UploadData>>) returns (sent: seq<seq<UploadRoute.FormEntry>>)
      requires |replies| == |selectedFiles|
      modifies this`selectedFiles, this`uploadResults
      ensures State() == AfterUpload(old(State()), replies)
      ensures old(selectedFiles) == [] ==> sent == []
      ensures old(selectedFiles) != [] ==> sent == Requests(old(selectedFiles), replies)
    {
      sent := [];
      if |selectedFiles| == 0 {
        return;
      }
      var results;
      results, sent := RunUploads(selectedFiles, replies);
      if results.Some? {
        uploadResults := results.value;
        selectedFiles := [];
      }
    }
  }

  /** The forms a run sends: one per file, in selection order, up to and including the
      first request that throws. */
  function Requests(files: seq<FileBlob>, replies: seq<Fetched<UploadData>>): (sent: seq<seq<UploadRoute.FormEntry>>)
    requires |replies| == |files|
    ensures var k := FindIndex(replies, IsThrow);
      |sent| == if k < 0 then |files| else k + 1
    ensures forall i :: 0 <= i < |sent| ==> sent[i] == PageForm(files[i])
  {
    var k := FindIndex(replies, IsThrow);
    var n := if k < 0 then |files| else k + 1;
    seq(n, i requires 0 <= i < n => PageForm(files[i]))
  }

  /** One result line more once the next request answers. */
  lemma ResultsStep(files: seq<FileBlob>, replies: seq<Fetched<UploadData>>, i: nat, results: seq<string>)
    requires |replies| == |files| && i < |files| && !replies[i].Threw?
    requires Results(files[..i], replies[..i]) == Some(results)
    ensures Results(files[..i + 1], replies[..i + 1]) == Some(results + [ResultLine(files[i], replies[i])])
  {
    assert files[..i + 1][..i] == files[..i];
    assert replies[..i + 1][..i] == replies[..i];
  }

  /** The forms sent up to and including request `n - 1`, where the run stops. */
  lemma RequestsSent(files: seq<FileBlob>, replies: seq<Fetched<UploadData>>, n: nat, sent: seq<seq<UploadRoute.FormEntry>>)
    requires |replies| == |files| && n <= |files|
    requires var k := FindIndex(replies, IsThrow); n == if k < 0 then |files| else k + 1
    requires |sent| == n && forall j :: 0 <= j < n ==> sent[j] == PageForm(files[j])
    ensures sent == Requests(files, replies)
  {
  }

  /** The request loop of `handleUpload`: one request per file, in selection order, each
      adding its result line, until a request throws. */
  method RunUploads(files: seq<FileBlob>, replies: seq<Fetched<UploadData>>)
    returns (results: Option<seq<string>>, sent: seq<seq<UploadRoute.FormEntry>>)
    requires |replies| == |files|
    ensures results == Results(files, replies)
    ensures sent == Requests(files, replies)
  {
    var lines: seq<string> := [];
    sent := [];
    var i := 0;
    while i < |files|
      invariant 0 <= i <= |files|
      invariant Results(files[..i], replies[..i]) == Some(lines)
      invariant forall j :: 0 <= j < i ==> !replies[j].Threw?
      invariant |sent| == i
      invariant forall j :: 0 <= j < i ==> sent[j] == PageForm(files[j])
    {
      sent := sent + [PageForm(files[i])];
      if replies[i].Threw? {
        FirstThrowAt(replies, i);
        ResultsAbandoned(files, replies);
        RequestsSent(files, replies, i + 1, sent);
        return None, sent;
      }
      ResultsStep(files, replies, i, lines);
      lines := lines + [ResultLine(files[i], replies[i])];
      i := i + 1;
    }
    assert files[..i] == files && replies[..i] == replies;
    NoThrow(replies);
    RequestsSent(files, replies, i, sent);
    results := Some(lines);
  }
}
